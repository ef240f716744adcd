/** Copying a protobuf document under fresh element ids, as RENAME and COPY do. */
module ProtoCopy {
  import opened Options
  import opened ProtoDocs
  import Lex
  import P = ProtoPaths
  import R = Rga
  import Q = RgaStable
  import S = Sorting
  import W = RgaWalk

  datatype Entry = Entry(path: Path, node: Node)

  /** A scan lists every record of the document once. */
  ghost predicate Scans(scan: seq<Entry>, nodes: Nodes) {
    && (forall i, j :: 0 <= i < j < |scan| ==> scan[i].path != scan[j].path)
    && (forall e :: e in scan ==> e.path in nodes && nodes[e.path] == e.node)
    && (forall p :: p in nodes ==> Entry(p, nodes[p]) in scan)
  }

  // ----- children by parent ------------------------------------------------

  datatype Child = Child(seg: Seg, node: Node)

  function ChildrenAmong(scan: seq<Entry>, path: Path): seq<Child> {
    if scan == [] then []
    else
      var front, last := ChildrenAmong(scan[..|scan| - 1], path), scan[|scan| - 1];
      if IsChild(last.path, path) then front + [Child(last.path[|path|], last.node)] else front
  }

  lemma {:induction false} ChildrenIff(scan: seq<Entry>, path: Path, c: Child)
    ensures c in ChildrenAmong(scan, path) <==> Entry(path + [c.seg], c.node) in scan
  {
    if scan != [] {
      var front, last := scan[..|scan| - 1], scan[|scan| - 1];
      assert scan == front + [last];
      ChildrenIff(front, path, c);
      ChildPath(last.path, path);
    }
  }

  function Lookup(kids: map<Path, seq<Child>>, path: Path): seq<Child> {
    if path in kids then kids[path] else []
  }

  method Group(scan: seq<Entry>) returns (kids: map<Path, seq<Child>>)
    ensures forall path :: Lookup(kids, path) == ChildrenAmong(scan, path)
  {
    kids := map[];
    for i := 0 to |scan|
      invariant forall path :: Lookup(kids, path) == ChildrenAmong(scan[..i], path)
    {
      assert scan[..i + 1][..i] == scan[..i];
      var p := scan[i].path;
      if p != [] {
        var parent := p[..|p| - 1];
        forall path ensures IsChild(p, path) <==> path == parent {}
        kids := kids[parent := Lookup(kids, parent) + [Child(p[|p| - 1], scan[i].node)]];
      }
    }
    assert scan[..|scan|] == scan;
  }

  // ----- what the walk emits -----------------------------------------------

  /** The entry belongs to the copy below `there`. */
  ghost predicate IsTarget(nodes: Nodes, ids: Ids, here: Path, there: Path, val: Val, e: Entry)
    requires Keyed(nodes)
  {
    exists seg, rest :: e.path == there + ([seg] + rest) &&
      Target(nodes, ids, here, there, val, seg, rest) == Some(e.node)
  }

  /** The entry belongs to the copy at or below one segment. */
  ghost predicate Branch(nodes: Nodes, ids: Ids, here: Path, there: Path, val: Val, seg: Seg, e: Entry)
    requires Keyed(nodes)
  {
    match Origin(nodes, ids, here, there, val, seg)
    case None => false
    case Some(o) =>
      || e == Entry(there + [seg], Copied(nodes, ids, here, there, val, seg))
      || IsTarget(nodes, ids, here + [o], there + [seg], ValAt(nodes, here + [o]), e)
  }

  lemma {:induction false} TargetAt(nodes: Nodes, ids: Ids, here: Path, there: Path, val: Val, e: Entry, seg: Seg,
      rest: Path)
    requires Keyed(nodes) && e.path == there + ([seg] + rest) &&
      Target(nodes, ids, here, there, val, seg, rest) == Some(e.node)
    ensures IsTarget(nodes, ids, here, there, val, e)
  {}

  lemma {:induction false} SplitOf(nodes: Nodes, ids: Ids, here: Path, there: Path, val: Val, e: Entry)
    returns (seg: Seg, rest: Path)
    requires Keyed(nodes) && IsTarget(nodes, ids, here, there, val, e)
    ensures e.path == there + ([seg] + rest) && Target(nodes, ids, here, there, val, seg, rest) == Some(e.node)
    ensures Origin(nodes, ids, here, there, val, seg).Some?
  {
    seg, rest :| e.path == there + ([seg] + rest) && Target(nodes, ids, here, there, val, seg, rest) == Some(e.node);
  }

  lemma {:induction false} BelowIsTarget(nodes: Nodes, ids: Ids, here: Path, there: Path, val: Val, seg: Seg, o: Seg,
      e: Entry)
    requires Keyed(nodes) && Origin(nodes, ids, here, there, val, seg) == Some(o)
    requires IsTarget(nodes, ids, here + [o], there + [seg], ValAt(nodes, here + [o]), e)
    ensures IsTarget(nodes, ids, here, there, val, e)
  {
    var next, rest := SplitOf(nodes, ids, here + [o], there + [seg], ValAt(nodes, here + [o]), e);
    TargetCons(nodes, ids, here, there, val, seg, next, rest);
    Deeper(there, seg, [next] + rest);
    TargetAt(nodes, ids, here, there, val, e, seg, [next] + rest);
  }

  lemma {:induction false} BranchIsTarget(nodes: Nodes, ids: Ids, here: Path, there: Path, val: Val, seg: Seg, e: Entry)
    requires Keyed(nodes) && Branch(nodes, ids, here, there, val, seg, e)
    ensures IsTarget(nodes, ids, here, there, val, e)
  {
    if e == Entry(there + [seg], Copied(nodes, ids, here, there, val, seg)) {
      assert [seg] + [] == [seg];
      TargetAt(nodes, ids, here, there, val, e, seg, []);
    } else {
      BelowIsTarget(nodes, ids, here, there, val, seg, Origin(nodes, ids, here, there, val, seg).value, e);
    }
  }

  lemma {:induction false} TargetIsBranch(nodes: Nodes, ids: Ids, here: Path, there: Path, val: Val, e: Entry)
    returns (seg: Seg)
    requires Keyed(nodes) && IsTarget(nodes, ids, here, there, val, e)
    ensures Branch(nodes, ids, here, there, val, seg, e)
  {
    var rest;
    seg, rest := SplitOf(nodes, ids, here, there, val, e);
    if rest == [] {
      assert [seg] + rest == [seg];
    } else {
      var o := here + [Origin(nodes, ids, here, there, val, seg).value];
      DeepPath(there, seg, rest);
      TargetAt(nodes, ids, o, there + [seg], ValAt(nodes, o), e, rest[0], rest[1..]);
    }
  }

  lemma {:induction false} DeepPath(there: Path, seg: Seg, rest: Path)
    requires rest != []
    ensures there + ([seg] + rest) == there + [seg] + ([rest[0]] + rest[1..])
  {}

  /** Fields and entries, and elements, emitted so far. */
  datatype Emitted = Emitted(nodes: seq<Entry>, elems: seq<Entry>)

  predicate Holds(out: Emitted, e: Entry) {
    e in out.nodes || e in out.elems
  }

  /** No two entries have the same path. */
  predicate Once(es: seq<Entry>) {
    forall i, j :: 0 <= i < j < |es| ==> es[i].path != es[j].path
  }

  lemma {:induction false} OnceJoin(a: seq<Entry>, b: seq<Entry>)
    requires Once(a) && Once(b) && forall d, e :: d in a && e in b ==> d.path != e.path
    ensures Once(a + b)
  {
    var s := a + b;
    forall i, j | 0 <= i < j < |s| ensures s[i].path != s[j].path {
      if i < |a| <= j { assert s[i] in a && s[j] in b; }
    }
  }

  /** Fields and entries on one side, live elements on the other, each once. */
  predicate Sorted(out: Emitted) {
    && (forall e :: e in out.nodes ==> e.node.Plain?) && (forall e :: e in out.elems ==> e.node.Item? && e.node.live)
    && Once(out.nodes) && Once(out.elems)
  }

  lemma {:induction false} SortedJoin(a: Emitted, b: Emitted)
    requires Sorted(a) && Sorted(b) && forall d, e :: Holds(a, d) && Holds(b, e) ==> d.path != e.path
    ensures Sorted(Join(a, b))
  {
    forall d, e | d in a.nodes && e in b.nodes ensures d.path != e.path { assert Holds(a, d) && Holds(b, e); }
    forall d, e | d in a.elems && e in b.elems ensures d.path != e.path { assert Holds(a, d) && Holds(b, e); }
    OnceJoin(a.nodes, b.nodes);
    OnceJoin(a.elems, b.elems);
  }

  lemma {:induction false} SortedEmit(out: Emitted, own: Entry)
    requires Sorted(out) && (own.node.Plain? || own.node.live) && forall e :: Holds(out, e) ==> e.path != own.path
    ensures Sorted(Emit(out, own))
  {
    forall d | d in out.nodes || d in out.elems ensures d.path != own.path { assert Holds(out, d); }
    if own.node.Plain? { OnceJoin(out.nodes, [own]); } else { OnceJoin(out.elems, [own]); }
  }

  /** Everything in a branch lies at or under its segment. */
  lemma {:induction false} BranchUnder(nodes: Nodes, ids: Ids, here: Path, there: Path, val: Val, seg: Seg, e: Entry)
    requires Keyed(nodes) && Branch(nodes, ids, here, there, val, seg, e)
    ensures there + [seg] <= e.path
  {
    if e != Entry(there + [seg], Copied(nodes, ids, here, there, val, seg)) {
      var o := here + [Origin(nodes, ids, here, there, val, seg).value];
      var next, rest := SplitOf(nodes, ids, o, there + [seg], ValAt(nodes, o), e);
    }
  }

  lemma {:induction false} OtherBranch(out: Emitted, nodes: Nodes, ids: Ids, here: Path, there: Path, val: Val,
      segs: seq<Seg>, seg: Seg, e: Entry)
    requires Keyed(nodes) && Branched(out, nodes, ids, here, there, val, segs) && seg !in segs && Holds(out, e)
    ensures !(there + [seg] <= e.path)
  {
    var s :| s in segs && Branch(nodes, ids, here, there, val, s, e);
    BranchUnder(nodes, ids, here, there, val, s, e);
    assert (there + [s])[|there|] == s && (there + [seg])[|there|] == seg;
  }

  lemma {:induction false} BranchSorted(out: Emitted, nodes: Nodes, ids: Ids, here: Path, there: Path, val: Val,
      segs: seq<Seg>, seg: Seg, o: Seg, sub: Emitted)
    requires Keyed(nodes) && Branched(out, nodes, ids, here, there, val, segs) && seg !in segs
    requires Origin(nodes, ids, here, there, val, seg) == Some(o)
    requires Walked(sub, nodes, ids, here + [o], there + [seg], ValAt(nodes, here + [o]))
    ensures Sorted(Join(Emit(out, Entry(there + [seg], Copied(nodes, ids, here, there, val, seg))), sub))
  {
    var own := Entry(there + [seg], Copied(nodes, ids, here, there, val, seg));
    forall e | Holds(out, e) ensures !(there + [seg] <= e.path) {
      OtherBranch(out, nodes, ids, here, there, val, segs, seg, e);
    }
    SortedEmit(out, own);
    forall d, e | Holds(Emit(out, own), d) && Holds(sub, e) ensures d.path != e.path {
      var next, rest := SplitOf(nodes, ids, here + [o], there + [seg], ValAt(nodes, here + [o]), e);
      assert there + [seg] < e.path;
      assert d == own || Holds(out, d);
    }
    SortedJoin(Emit(out, own), sub);
  }

  function Join(a: Emitted, b: Emitted): Emitted {
    Emitted(a.nodes + b.nodes, a.elems + b.elems)
  }

  function Emit(out: Emitted, e: Entry): Emitted {
    if e.node.Plain? then out.(nodes := out.nodes + [e]) else out.(elems := out.elems + [e])
  }

  /** The walk emitted exactly the copy below `there`. */
  ghost predicate Walked(out: Emitted, nodes: Nodes, ids: Ids, here: Path, there: Path, val: Val)
    requires Keyed(nodes)
  {
    Sorted(out) && forall e :: Holds(out, e) <==> IsTarget(nodes, ids, here, there, val, e)
  }

  /** The walk emitted exactly the branches of the given segments. */
  ghost predicate Branched(out: Emitted, nodes: Nodes, ids: Ids, here: Path, there: Path, val: Val, segs: seq<Seg>)
    requires Keyed(nodes)
  {
    Sorted(out) && forall e :: Holds(out, e) <==> exists s :: s in segs && Branch(nodes, ids, here, there, val, s, e)
  }

  lemma {:induction false} BranchNext(out: Emitted, nodes: Nodes, ids: Ids, here: Path, there: Path, val: Val,
      segs: seq<Seg>, seg: Seg, o: Seg, sub: Emitted)
    requires Keyed(nodes) && Branched(out, nodes, ids, here, there, val, segs) && seg !in segs
    requires Origin(nodes, ids, here, there, val, seg) == Some(o)
    requires Walked(sub, nodes, ids, here + [o], there + [seg], ValAt(nodes, here + [o]))
    ensures var own := Entry(there + [seg], Copied(nodes, ids, here, there, val, seg));
      Branched(Join(Emit(out, own), sub), nodes, ids, here, there, val, segs + [seg])
  {
    var own := Entry(there + [seg], Copied(nodes, ids, here, there, val, seg));
    var r, all := Join(Emit(out, own), sub), segs + [seg];
    BranchSorted(out, nodes, ids, here, there, val, segs, seg, o, sub);
    forall e ensures Holds(r, e) <==> exists s :: s in all && Branch(nodes, ids, here, there, val, s, e) {
      assert Holds(r, e) <==> Holds(out, e) || e == own || Holds(sub, e);
      assert Branch(nodes, ids, here, there, val, seg, e) <==> e == own || Holds(sub, e);
      if Holds(out, e) {
        var s :| s in segs && Branch(nodes, ids, here, there, val, s, e);
        assert s in all;
      }
      assert seg in all;
    }
  }

  lemma {:induction false} BranchSkip(out: Emitted, nodes: Nodes, ids: Ids, here: Path, there: Path, val: Val,
      segs: seq<Seg>, seg: Seg)
    requires Keyed(nodes) && Branched(out, nodes, ids, here, there, val, segs)
    requires Origin(nodes, ids, here, there, val, seg).None?
    ensures Branched(out, nodes, ids, here, there, val, segs + [seg])
  {
    var all := segs + [seg];
    forall e ensures Holds(out, e) <==> exists s :: s in all && Branch(nodes, ids, here, there, val, s, e) {
      if Holds(out, e) {
        var s :| s in segs && Branch(nodes, ids, here, there, val, s, e);
        assert s in all;
      }
    }
  }

  lemma {:induction false} BranchesDone(out: Emitted, nodes: Nodes, ids: Ids, here: Path, there: Path, val: Val,
      segs: seq<Seg>)
    requires Keyed(nodes) && Branched(out, nodes, ids, here, there, val, segs)
    requires forall s :: Origin(nodes, ids, here, there, val, s).Some? ==> s in segs
    ensures Walked(out, nodes, ids, here, there, val)
  {
    forall e ensures Holds(out, e) <==> IsTarget(nodes, ids, here, there, val, e) {
      if Holds(out, e) {
        var s :| s in segs && Branch(nodes, ids, here, there, val, s, e);
        BranchIsTarget(nodes, ids, here, there, val, s, e);
      }
      if IsTarget(nodes, ids, here, there, val, e) {
        var s := TargetIsBranch(nodes, ids, here, there, val, e);
        assert s in segs;
      }
    }
  }

  // ----- the walk ----------------------------------------------------------

  /** Everything the recursion needs: a scan grouped by parent. */
  ghost predicate Grouped(kids: map<Path, seq<Child>>, nodes: Nodes) {
    Keyed(nodes) && forall path :: Listed(Lookup(kids, path), nodes, path)
  }

  /** The children are the records right under a path, each once. */
  ghost predicate Listed(children: seq<Child>, nodes: Nodes, path: Path) {
    && OnceEach(children)
    && (forall c :: c in children <==> path + [c.seg] in nodes && nodes[path + [c.seg]] == c.node)
  }

  function SegsOf(children: seq<Child>): seq<Seg> {
    seq(|children|, i requires 0 <= i < |children| => children[i].seg)
  }

  lemma {:induction false} SegsSnoc(children: seq<Child>, k: nat)
    requires k < |children|
    ensures SegsOf(children[..k + 1]) == SegsOf(children[..k]) + [children[k].seg]
    ensures OnceEach(children) ==> children[k].seg !in SegsOf(children[..k])
  {}

  predicate OnceEach(children: seq<Child>) {
    forall i, j :: 0 <= i < j < |children| ==> children[i].seg != children[j].seg
  }

  lemma {:induction false} NoBranches(nodes: Nodes, ids: Ids, here: Path, there: Path, val: Val)
    requires Keyed(nodes)
    ensures Branched(Emitted([], []), nodes, ids, here, there, val, [])
  {}

  lemma {:induction false} KidOrigin(kids: map<Path, seq<Child>>, nodes: Nodes, ids: Ids, here: Path, there: Path,
      val: Val, c: Child)
    requires Grouped(kids, nodes) && (val.Msg? || val.Map?) && c in Lookup(kids, here)
    ensures Origin(nodes, ids, here, there, val, c.seg) ==
            if c.node.Plain? && Matches(val, c.seg) then Some(c.seg) else None
    ensures c.node.Plain? && Matches(val, c.seg) ==>
      Copied(nodes, ids, here, there, val, c.seg) == c.node && ValAt(nodes, here + [c.seg]) == c.node.val
    ensures c.node.Plain? && Matches(val, c.seg) ==> Below(nodes, here + [c.seg]) < Below(nodes, here)
  {
    assert Listed(Lookup(kids, here), nodes, here);
    KidsIff(nodes, here, val, c.seg);
    BelowShrinks(nodes, here, c.seg);
  }

  lemma {:induction false} KidsListed(kids: map<Path, seq<Child>>, nodes: Nodes, ids: Ids, here: Path, there: Path,
      val: Val, s: Seg)
    requires Grouped(kids, nodes) && (val.Msg? || val.Map?) && Origin(nodes, ids, here, there, val, s).Some?
    ensures s in SegsOf(Lookup(kids, here))
  {
    assert Listed(Lookup(kids, here), nodes, here);
    KidsIff(nodes, here, val, s);
    var children, c := Lookup(kids, here), Child(s, nodes[here + [s]]);
    assert c in children;
    var i :| 0 <= i < |children| && children[i] == c;
    assert SegsOf(children)[i] == s;
  }

  /** Copy the k-th child with what lies below it, unless it is stale. */
  method WalkKid(kids: map<Path, seq<Child>>, ids: Ids, here: Path, there: Path, val: Val, k: nat, out: Emitted,
      ghost nodes: Nodes)
    returns (out': Emitted)
    requires Grouped(kids, nodes) && IdsOk(ids) && (val.Msg? || val.Map?) && k < |Lookup(kids, here)|
    requires Branched(out, nodes, ids, here, there, val, SegsOf(Lookup(kids, here)[..k]))
    ensures Branched(out', nodes, ids, here, there, val, SegsOf(Lookup(kids, here)[..k + 1]))
    decreases Below(nodes, here), 0
  {
    var children := Lookup(kids, here);
    var c := children[k];
    assert Listed(children, nodes, here);
    KidOrigin(kids, nodes, ids, here, there, val, c);
    SegsSnoc(children, k);
    if c.node.Plain? && Matches(val, c.seg) {
      var sub := Walk(kids, ids, here + [c.seg], there + [c.seg], c.node.val, nodes);
      BranchNext(out, nodes, ids, here, there, val, SegsOf(children[..k]), c.seg, c.seg, sub);
      out' := Join(Emit(out, Entry(there + [c.seg], c.node)), sub);
    } else {
      BranchSkip(out, nodes, ids, here, there, val, SegsOf(children[..k]), c.seg);
      out' := out;
    }
  }

  method WalkKids(kids: map<Path, seq<Child>>, ids: Ids, here: Path, there: Path, val: Val, ghost nodes: Nodes)
    returns (out: Emitted)
    requires Grouped(kids, nodes) && IdsOk(ids) && (val.Msg? || val.Map?)
    ensures Walked(out, nodes, ids, here, there, val)
    decreases Below(nodes, here), 1
  {
    var children := Lookup(kids, here);
    out := Emitted([], []);
    NoBranches(nodes, ids, here, there, val);
    for k := 0 to |children|
      invariant Branched(out, nodes, ids, here, there, val, SegsOf(children[..k]))
    {
      out := WalkKid(kids, ids, here, there, val, k, out, nodes);
    }
    assert children[..|children|] == children;
    forall s | Origin(nodes, ids, here, there, val, s).Some? ensures s in SegsOf(children) {
      KidsListed(kids, nodes, ids, here, there, val, s);
    }
    BranchesDone(out, nodes, ids, here, there, val, SegsOf(children));
  }

  // ----- lists -------------------------------------------------------------

  predicate IsElem(c: Child) {
    c.seg.Elem? && c.node.Item?
  }

  function ElemOf(c: Child): R.Elem
    requires IsElem(c)
  {
    R.Elem(c.seg.eid, c.node.left, c.node.live)
  }

  function ElemsAmong(children: seq<Child>): seq<R.Elem> {
    if children == [] then []
    else
      var front, last := ElemsAmong(children[..|children| - 1]), children[|children| - 1];
      if IsElem(last) then front + [ElemOf(last)] else front
  }

  lemma {:induction false} AmongIff(children: seq<Child>, e: R.Elem)
    ensures e in ElemsAmong(children) <==> exists c :: c in children && IsElem(c) && ElemOf(c) == e
  {
    if children != [] {
      var front, last := children[..|children| - 1], children[|children| - 1];
      assert children == front + [last];
      AmongIff(front, e);
      if e in ElemsAmong(front) {
        var c :| c in front && IsElem(c) && ElemOf(c) == e;
        assert c in children;
      }
    }
  }

  predicate IdsDiffer(es: seq<R.Elem>) {
    forall i, j :: 0 <= i < j < |es| ==> es[i].eid != es[j].eid
  }

  lemma {:induction false} AmongDiffer(children: seq<Child>)
    requires OnceEach(children)
    ensures IdsDiffer(ElemsAmong(children))
  {
    if children != [] {
      var front, last := children[..|children| - 1], children[|children| - 1];
      assert children == front + [last] && forall i :: 0 <= i < |front| ==> front[i] == children[i];
      AmongDiffer(front);
      if IsElem(last) {
        var es := ElemsAmong(front);
        forall i | 0 <= i < |es| ensures es[i].eid != last.seg.eid {
          AmongIff(front, es[i]);
          var c :| c in front && IsElem(c) && ElemOf(c) == es[i];
          var j :| 0 <= j < |front| && front[j] == c;
          assert children[j] == c;
        }
      }
    }
  }

  /** The elements among the children are those of the list, in some order. */
  lemma {:induction false} SameElems(children: seq<Child>, nodes: Nodes, path: Path)
    requires Keyed(nodes) && Listed(children, nodes, path)
    ensures R.Wf(ElemsAmong(children)) && R.Wf(Elems(nodes, path)) &&
      R.Order(ElemsAmong(children)) == R.Order(Elems(nodes, path))
  {
    var es, fs := ElemsAmong(children), Elems(nodes, path);
    ElemsWf(nodes, path);
    AmongDiffer(children);
    forall e ensures e in es <==> e in fs {
      AmongIff(children, e);
      ElemsIff(nodes, path, e);
      EidsIff(nodes, path, e.eid);
      if e in fs { assert Child(Elem(e.eid), nodes[path + [Elem(e.eid)]]) in children; }
    }
    forall e | e in es ensures e.eid != R.HEAD { assert e in fs; }
    Q.OrderIgnoresArrangement(es, fs);
  }

  method ListElems(children: seq<Child>) returns (es: seq<R.Elem>, byEid: map<nat, Val>)
    requires OnceEach(children)
    ensures es == ElemsAmong(children)
    ensures forall c :: c in children && IsElem(c) ==> c.seg.eid in byEid && byEid[c.seg.eid] == c.node.val
  {
    es, byEid := [], map[];
    for k := 0 to |children|
      invariant es == ElemsAmong(children[..k])
      invariant forall i :: 0 <= i < k && IsElem(children[i]) ==>
        children[i].seg.eid in byEid && byEid[children[i].seg.eid] == children[i].node.val
    {
      var c := children[k];
      assert children[..k + 1][..k] == children[..k];
      if IsElem(c) {
        es := es + [ElemOf(c)];
        byEid := byEid[c.seg.eid := c.node.val];
      }
    }
    assert children[..|children|] == children;
  }

  function FreshSegs(ids: Ids, path: Path, n: nat): (r: seq<Seg>)
    ensures |r| == n && forall i :: 0 <= i < n ==> r[i] == Elem(ids(path, i))
  {
    seq(n, i requires 0 <= i < n => Elem(ids(path, i)))
  }

  /** What the n-th shown element becomes. */
  lemma {:induction false} ItemOrigin(nodes: Nodes, ids: Ids, here: Path, there: Path, n: nat)
    requires Keyed(nodes) && IdsOk(ids) && n < |Shown(nodes, here)|
    ensures var e, f := Elem(Shown(nodes, here)[n]), Elem(ids(there, n));
      && Origin(nodes, ids, here, there, List, f) == Some(e)
      && Copied(nodes, ids, here, there, List, f) ==
        Item(if n == 0 then R.HEAD else ids(there, n - 1), ValAt(nodes, here + [e]), true)
      && here + [e] in nodes && nodes[here + [e]].Item? && Below(nodes, here + [e]) < Below(nodes, here)
  {
    var c := Fresh(ids, there, |Shown(nodes, here)|);
    FreshDistinct(ids, there, |c|);
    IndexIs(c, n);
    var e := Shown(nodes, here)[n];
    assert e in Shown(nodes, here);
    ShownAre(nodes, here, e);
    BelowShrinks(nodes, here, Elem(e));
  }

  lemma {:induction false} ItemsListed(nodes: Nodes, ids: Ids, here: Path, there: Path, s: Seg)
    requires Keyed(nodes) && Origin(nodes, ids, here, there, List, s).Some?
    ensures s in FreshSegs(ids, there, |Shown(nodes, here)|)
  {
    var n := |Shown(nodes, here)|;
    var i := IndexOf(Fresh(ids, there, n), s.eid).value;
    assert FreshSegs(ids, there, n)[i] == s;
  }

  /** The first k items show the first n ids. */
  predicate ShownUpTo(order: seq<R.Item>, k: nat, shown: seq<nat>, n: nat) {
    k <= |order| && n <= |shown| && LiveIds(order[..k]) == shown[..n] && LiveIds(order) == shown
  }

  lemma {:induction false} LiveGrows(order: seq<R.Item>, k: nat)
    requires k <= |order|
    ensures |LiveIds(order[..k])| <= |LiveIds(order)| && LiveIds(order[..k]) == LiveIds(order)[..|LiveIds(order[..k])|]
    decreases |order| - k
  {
    if k < |order| {
      LiveGrows(order, k + 1);
      assert order[..k + 1][..k] == order[..k];
    } else {
      assert order[..k] == order;
    }
  }

  lemma {:induction false} ShownNext(order: seq<R.Item>, k: nat, shown: seq<nat>, n: nat)
    requires ShownUpTo(order, k, shown, n) && k < |order|
    ensures order[k].live ==> n < |shown| && shown[n] == order[k].eid
    ensures ShownUpTo(order, k + 1, shown, if order[k].live then n + 1 else n)
  {
    assert order[..k + 1][..k] == order[..k];
    LiveGrows(order, k + 1);
  }

  /** Copy the n-th shown element with what lies below it. */
  method WalkItem(kids: map<Path, seq<Child>>, ids: Ids, here: Path, there: Path, e: nat, val: Val, n: nat,
      out: Emitted, ghost nodes: Nodes)
    returns (out': Emitted)
    requires Grouped(kids, nodes) && IdsOk(ids) && n < |Shown(nodes, here)| && e == Shown(nodes, here)[n]
    requires val == ValAt(nodes, here + [Elem(e)]) &&
      Branched(out, nodes, ids, here, there, List, FreshSegs(ids, there, n))
    ensures Branched(out', nodes, ids, here, there, List, FreshSegs(ids, there, n + 1))
    decreases Below(nodes, here), 0
  {
    var seg := Elem(ids(there, n));
    ItemOrigin(nodes, ids, here, there, n);
    var sub := Walk(kids, ids, here + [Elem(e)], there + [seg], val, nodes);
    var own := Entry(there + [seg], Item(if n == 0 then R.HEAD else ids(there, n - 1), val, true));
    assert seg !in FreshSegs(ids, there, n);
    BranchNext(out, nodes, ids, here, there, List, FreshSegs(ids, there, n), seg, Elem(e), sub);
    assert FreshSegs(ids, there, n + 1) == FreshSegs(ids, there, n) + [seg];
    out' := Join(Emit(out, own), sub);
  }

  method WalkList(kids: map<Path, seq<Child>>, ids: Ids, here: Path, there: Path, ghost nodes: Nodes)
    returns (out: Emitted)
    requires Grouped(kids, nodes) && IdsOk(ids)
    ensures Walked(out, nodes, ids, here, there, List)
    decreases Below(nodes, here), 1
  {
    var children := Lookup(kids, here);
    assert Listed(children, nodes, here);
    var es, byEid := ListElems(children);
    SameElems(children, nodes, here);
    var order := W.RgaOrder(es);
    ghost var shown := Shown(nodes, here);
    out := Emitted([], []);
    NoBranches(nodes, ids, here, there, List);
    var n := 0;
    assert FreshSegs(ids, there, 0) == [];
    for k := 0 to |order|
      invariant ShownUpTo(order, k, shown, n)
      invariant Branched(out, nodes, ids, here, there, List, FreshSegs(ids, there, n))
    {
      ShownNext(order, k, shown, n);
      if order[k].live {
        var e := order[k].eid;
        ShownElem(children, nodes, here, e);
        out := WalkItem(kids, ids, here, there, e, byEid[e], n, out, nodes);
        n := n + 1;
      }
    }
    assert order[..|order|] == order;
    forall s | Origin(nodes, ids, here, there, List, s).Some? ensures s in FreshSegs(ids, there, n) {
      ItemsListed(nodes, ids, here, there, s);
    }
    BranchesDone(out, nodes, ids, here, there, List, FreshSegs(ids, there, n));
  }

  lemma {:induction false} ShownElem(children: seq<Child>, nodes: Nodes, path: Path, e: nat)
    requires Keyed(nodes) && Listed(children, nodes, path) && e in Shown(nodes, path)
    ensures path + [Elem(e)] in nodes && Child(Elem(e), nodes[path + [Elem(e)]]) in children &&
      nodes[path + [Elem(e)]].Item?
  {
    ShownAre(nodes, path, e);
  }

  lemma {:induction false} NoTargets(nodes: Nodes, ids: Ids, here: Path, there: Path, val: Val)
    requires Keyed(nodes) && val.Scalar?
    ensures Walked(Emitted([], []), nodes, ids, here, there, val)
  {
    forall s ensures Origin(nodes, ids, here, there, val, s).None? {
      KidsIff(nodes, here, val, s);
    }
    NoBranches(nodes, ids, here, there, val);
    BranchesDone(Emitted([], []), nodes, ids, here, there, val, []);
  }

  /** Copy everything below a node. */
  method Walk(kids: map<Path, seq<Child>>, ids: Ids, here: Path, there: Path, val: Val, ghost nodes: Nodes)
    returns (out: Emitted)
    requires Grouped(kids, nodes) && IdsOk(ids)
    ensures Walked(out, nodes, ids, here, there, val)
    decreases Below(nodes, here), 2
  {
    match val
    case Scalar(_) =>
      NoTargets(nodes, ids, here, there, val);
      out := Emitted([], []);
    case List =>
      out := WalkList(kids, ids, here, there, nodes);
    case _ =>
      out := WalkKids(kids, ids, here, there, val, nodes);
  }

  // ----- the whole copy ----------------------------------------------------

  function MaxDot(dots: seq<nat>): (m: nat)
    ensures forall d :: d in dots ==> d <= m
    ensures m == 0 || m in dots
  {
    if dots == [] then 0
    else
      var front, last := MaxDot(dots[..|dots| - 1]), dots[|dots| - 1];
      assert dots == dots[..|dots| - 1] + [last];
      if last > front then last else front
  }

  function DotOf(e: Entry): nat {
    if e.node.Plain? then MaxDot(e.node.dots) else 0
  }

  /** By highest dot, then by the bytes of the path. */
  predicate DotLe(a: Entry, b: Entry) {
    DotOf(a) < DotOf(b) || (DotOf(a) == DotOf(b) && Lex.Le(P.EncodePath(a.path), P.EncodePath(b.path)))
  }

  lemma {:induction false} DotOrder()
    ensures S.TotalPreorder(DotLe)
  {
    forall a, b ensures DotLe(a, b) || DotLe(b, a) { Lex.Total(P.EncodePath(a.path), P.EncodePath(b.path)); }
    forall a, b, c | DotLe(a, b) && DotLe(b, c) ensures DotLe(a, c) {
      if DotOf(a) == DotOf(b) == DotOf(c) {
        Lex.Transitive(P.EncodePath(a.path), P.EncodePath(b.path), P.EncodePath(c.path));
      }
    }
  }

  /** Records at different paths are never level. */
  lemma {:induction false} DotStrict(a: Entry, b: Entry)
    requires P.PathOk(a.path) && P.PathOk(b.path) && a.path != b.path
    ensures DotLe(a, b) <==> !DotLe(b, a)
  {
    var x, y := P.EncodePath(a.path), P.EncodePath(b.path);
    Lex.Total(x, y);
    P.PathPrefix(a.path, b.path);
    P.PathPrefix(b.path, a.path);
    if Lex.Le(x, y) && Lex.Le(y, x) { Lex.Antisymmetric(x, y); }
  }

  method SortByDot(all: seq<Entry>) returns (sorted: seq<Entry>)
    requires Once(all)
    ensures S.SortedBy(sorted, DotLe) && Once(sorted) && forall e :: e in sorted <==> e in all
  {
    DotOrder();
    sorted := S.Sort(all, DotLe);
    S.SortSorted(all, DotLe);
    S.SameElements(all, sorted);
    forall i, j | 0 <= i < j < |sorted| ensures sorted[i].path != sorted[j].path {
      assert sorted[i] in all && sorted[j] in all && sorted[i] != sorted[j];
    }
  }

  /** A document that holds the written records, under whatever stamps. */
  ghost predicate Reflects(copy: Nodes, out: seq<Entry>) {
    && (forall e :: e in out ==> e.path in copy && Alike(e.node, copy[e.path]))
    && (forall p :: p in copy ==> exists e :: e in out && e.path == p)
  }

  lemma {:induction false} OriginSeg(nodes: Nodes, ids: Ids, here: Path, there: Path, val: Val, seg: Seg)
    requires Keyed(nodes) && IdsOk(ids) && Origin(nodes, ids, here, there, val, seg).Some?
    ensures seg != Elem(R.HEAD)
  {
    if val.List? { FreshDistinct(ids, there, |Shown(nodes, here)|); } else { KidsIff(nodes, here, val, seg); }
  }

  lemma {:induction false} TargetSegs(nodes: Nodes, ids: Ids, here: Path, there: Path, val: Val, seg: Seg,
      rest: Path, s: Seg)
    requires Keyed(nodes) && IdsOk(ids) && Target(nodes, ids, here, there, val, seg, rest).Some? &&
      (s == seg || s in rest)
    ensures s != Elem(R.HEAD)
    decreases |rest|
  {
    OriginSeg(nodes, ids, here, there, val, seg);
    if s != seg {
      var o := here + [Origin(nodes, ids, here, there, val, seg).value];
      TargetSegs(nodes, ids, o, there + [seg], ValAt(nodes, o), rest[0], rest[1..], s);
    }
  }

  lemma {:induction false} Whole(p: Path)
    requires p != []
    ensures [] + ([p[0]] + p[1..]) == p
  {}

  lemma {:induction false} CopyKeyed(nodes: Nodes, ids: Ids, copy: Nodes, val: Val)
    requires Keyed(nodes) && IdsOk(ids) && Copies(nodes, ids, copy, [], [], val)
    ensures Keyed(copy)
  {
    forall p, i | p in copy && 0 <= i < |p| ensures p[i] != Elem(R.HEAD) {
      assert CopiedAt(nodes, ids, copy, [], [], val, p[0], p[1..]);
      Whole(p);
      TargetSegs(nodes, ids, [], [], val, p[0], p[1..], p[i]);
    }
  }

  lemma {:induction false} EntryIs(nodes: Nodes, ids: Ids, val: Val, e: Entry)
    requires Keyed(nodes) && IsTarget(nodes, ids, [], [], val, e)
    ensures e.path != [] && Target(nodes, ids, [], [], val, e.path[0], e.path[1..]) == Some(e.node)
  {
    var seg, rest := SplitOf(nodes, ids, [], [], val, e);
    assert e.path[1..] == rest;
  }

  lemma {:induction false} WrittenAt(nodes: Nodes, ids: Ids, val: Val, part: Emitted, seg: Seg, rest: Path)
    requires Keyed(nodes) && Walked(part, nodes, ids, [], [], val) && Target(nodes, ids, [], [], val, seg, rest).Some?
    ensures Holds(part, Entry([] + ([seg] + rest), Target(nodes, ids, [], [], val, seg, rest).value))
  {
    TargetAt(nodes, ids, [], [], val,
      Entry([] + ([seg] + rest), Target(nodes, ids, [], [], val, seg, rest).value), seg, rest);
  }

  lemma {:induction false} OnlyWritten(nodes: Nodes, ids: Ids, val: Val, part: Emitted, seg: Seg, rest: Path, e: Entry)
    requires Keyed(nodes) && Walked(part, nodes, ids, [], [], val) && Holds(part, e) && e.path == [] + ([seg] + rest)
    ensures Target(nodes, ids, [], [], val, seg, rest) == Some(e.node)
  {
    EntryIs(nodes, ids, val, e);
    assert e.path[0] == seg && e.path[1..] == rest;
  }

  lemma {:induction false} ReflectsCopies(nodes: Nodes, ids: Ids, copy: Nodes, val: Val, root: Entry, part: Emitted,
      out: seq<Entry>)
    requires Keyed(nodes) && root.path == [] && Walked(part, nodes, ids, [], [], val)
    requires forall e :: e in out <==> e == root || Holds(part, e)
    requires Reflects(copy, out)
    ensures Copies(nodes, ids, copy, [], [], val)
  {
    forall seg, rest ensures CopiedAt(nodes, ids, copy, [], [], val, seg, rest) {
      var p, t := [] + ([seg] + rest), Target(nodes, ids, [], [], val, seg, rest);
      if t.Some? {
        WrittenAt(nodes, ids, val, part, seg, rest);
        assert Entry(p, t.value) in out;
      } else if p in copy {
        var e :| e in out && e.path == p;
        OnlyWritten(nodes, ids, val, part, seg, rest, e);
      }
    }
  }

  function RootOf(scan: seq<Entry>): Option<Node> {
    if scan == [] then None
    else if scan[|scan| - 1].path == [] then Some(scan[|scan| - 1].node)
    else RootOf(scan[..|scan| - 1])
  }

  lemma {:induction false} RootIs(scan: seq<Entry>, nodes: Nodes)
    requires Scans(scan, nodes)
    ensures RootOf(scan) == if [] in nodes then Some(nodes[[]]) else None
  {
    RootAmong(scan);
    if [] in nodes { assert Entry([], nodes[[]]) in scan; }
  }

  lemma {:induction false} RootAmong(scan: seq<Entry>)
    ensures RootOf(scan).Some? ==> Entry([], RootOf(scan).value) in scan
    ensures RootOf(scan).None? ==> forall e :: e in scan ==> e.path != []
  {
    if scan != [] {
      RootAmong(scan[..|scan| - 1]);
      assert scan == scan[..|scan| - 1] + [scan[|scan| - 1]];
    }
  }

  lemma {:induction false} ChildrenOnce(scan: seq<Entry>, path: Path)
    requires forall i, j :: 0 <= i < j < |scan| ==> scan[i].path != scan[j].path
    ensures OnceEach(ChildrenAmong(scan, path))
  {
    if scan != [] {
      var front, last := scan[..|scan| - 1], scan[|scan| - 1];
      assert scan == front + [last] && forall i :: 0 <= i < |front| ==> front[i] == scan[i];
      ChildrenOnce(front, path);
      if IsChild(last.path, path) {
        ChildPath(last.path, path);
        var cs := ChildrenAmong(front, path);
        forall i | 0 <= i < |cs| ensures cs[i].seg != last.path[|path|] {
          ChildrenIff(front, path, cs[i]);
          var j :| 0 <= j < |front| && front[j] == Entry(path + [cs[i].seg], cs[i].node);
          assert scan[j] == front[j];
        }
      }
    }
  }

  lemma {:induction false} ScanGrouped(scan: seq<Entry>, nodes: Nodes, kids: map<Path, seq<Child>>)
    requires Scans(scan, nodes) && Keyed(nodes) && forall path :: Lookup(kids, path) == ChildrenAmong(scan, path)
    ensures Grouped(kids, nodes)
  {
    forall path ensures Listed(Lookup(kids, path), nodes, path) {
      ChildrenOnce(scan, path);
      forall c ensures c in Lookup(kids, path) <==> path + [c.seg] in nodes && nodes[path + [c.seg]] == c.node {
        ChildrenIff(scan, path, c);
        if path + [c.seg] in nodes { assert Entry(path + [c.seg], nodes[path + [c.seg]]) in scan; }
      }
    }
  }

  method FindRoot(scan: seq<Entry>) returns (root: Option<Node>)
    ensures root == RootOf(scan)
  {
    root := None;
    for i := 0 to |scan|
      invariant root == RootOf(scan[..i])
    {
      assert scan[..i + 1][..i] == scan[..i];
      if scan[i].path == [] {
        root := Some(scan[i].node);
      }
    }
    assert scan[..|scan|] == scan;
  }

  /** No path is written twice with different records. */
  predicate Unambiguous(out: seq<Entry>) {
    forall d, e :: d in out && e in out && d.path == e.path ==> d == e
  }

  lemma {:induction false} WrittenUnambiguous(nodes: Nodes, ids: Ids, val: Val, root: Entry, part: Emitted,
      out: seq<Entry>)
    requires Keyed(nodes) && root.path == [] && Walked(part, nodes, ids, [], [], val)
    requires forall e :: e in out <==> e == root || Holds(part, e)
    ensures Unambiguous(out)
  {
    forall d, e | d in out && e in out && d.path == e.path ensures d == e {
      if d != root { EntryIs(nodes, ids, val, d); }
      if e != root { EntryIs(nodes, ids, val, e); }
    }
  }

  function Find(out: seq<Entry>, p: Path): Node {
    if out == [] then Plain(Scalar(0), [])
    else if out[|out| - 1].path == p then out[|out| - 1].node
    else Find(out[..|out| - 1], p)
  }

  lemma {:induction false} FindIs(out: seq<Entry>, p: Path)
    requires exists e :: e in out && e.path == p
    ensures Entry(p, Find(out, p)) in out
  {
    var front, last := out[..|out| - 1], out[|out| - 1];
    assert out == front + [last];
    if last.path != p {
      var e :| e in out && e.path == p;
      assert e in front;
      FindIs(front, p);
    }
  }

  /** The written records as a document. */
  function Written(out: seq<Entry>): Nodes {
    map p | p in (set e | e in out :: e.path) :: Find(out, p)
  }

  lemma {:induction false} WrittenReflects(out: seq<Entry>)
    requires Unambiguous(out)
    ensures Reflects(Written(out), out)
  {
    forall e | e in out ensures e.path in Written(out) && Alike(e.node, Written(out)[e.path]) { FindIs(out, e.path); }
  }

  /** The written records make up documents, all of which denote what the original does. */
  ghost predicate Preserves(out: seq<Entry>, nodes: Nodes, val: Val)
    requires Keyed(nodes)
  {
    && Unambiguous(out) && Reflects(Written(out), out)
    && forall copy: Nodes :: Reflects(copy, out) ==> Keyed(copy) && Meaning(copy, [], val) == Meaning(nodes, [], val)
  }

  lemma {:induction false} WrittenPreserves(nodes: Nodes, ids: Ids, val: Val, root: Entry, part: Emitted,
      out: seq<Entry>)
    requires Keyed(nodes) && IdsOk(ids) && root.path == [] && Walked(part, nodes, ids, [], [], val)
    requires forall e :: e in out <==> e == root || Holds(part, e)
    ensures Preserves(out, nodes, val)
  {
    WrittenUnambiguous(nodes, ids, val, root, part, out);
    WrittenReflects(out);
    forall copy: Nodes | Reflects(copy, out) ensures Keyed(copy) && Meaning(copy, [], val) == Meaning(nodes, [], val) {
      ReflectsCopies(nodes, ids, copy, val, root, part, out);
      CopyKeyed(nodes, ids, copy, val);
      CopyMeans(nodes, ids, copy, [], [], val);
    }
  }

  lemma {:induction false} RootOnce(nodes: Nodes, ids: Ids, val: Val, root: Entry, part: Emitted)
    requires Keyed(nodes) && root.path == [] && Walked(part, nodes, ids, [], [], val)
    ensures Once([root] + part.nodes)
  {
    forall e | e in part.nodes ensures e.path != [] {
      assert Holds(part, e);
      EntryIs(nodes, ids, val, e);
    }
    OnceJoin([root], part.nodes);
  }

  lemma {:induction false} WrittenOnce(fields: seq<Entry>, elems: seq<Entry>)
    requires Once(fields) && Once(elems) && Unambiguous(fields + elems)
    requires (forall e :: e in fields ==> e.node.Plain?) && (forall e :: e in elems ==> e.node.Item?)
    ensures Once(fields + elems)
  {
    forall d, e | d in fields && e in elems ensures d.path != e.path {
      assert d in fields + elems && e in fields + elems && d != e;
    }
    OnceJoin(fields, elems);
  }

  /**
   * The records of a copy: fields and entries by highest dot and path, then
   * elements. Whatever they are stamped with, they denote the same document.
   * Without a root that is a field record there is nothing to copy.
   */
  method RecomposeTree(scan: seq<Entry>, ids: Ids, ghost nodes: Nodes)
    returns (fields: seq<Entry>, elems: seq<Entry>)
    requires Scans(scan, nodes) && Keyed(nodes) && IdsOk(ids)
    ensures [] !in nodes || !nodes[[]].Plain? ==> fields == [] && elems == []
    ensures [] in nodes && nodes[[]].Plain? ==> Preserves(fields + elems, nodes, nodes[[]].val)
    ensures S.SortedBy(fields, DotLe) && Once(fields + elems) && (forall e :: e in fields ==> e.node.Plain?)
    ensures forall e :: e in elems ==> e.node.Item? && e.node.live
  {
    var root := FindRoot(scan);
    RootIs(scan, nodes);
    if root.None? || !root.value.Plain? {
      return [], [];
    }
    var kids := Group(scan);
    ScanGrouped(scan, nodes, kids);
    var part := Walk(kids, ids, [], [], root.value.val, nodes);
    var own := Entry([], root.value);
    RootOnce(nodes, ids, root.value.val, own, part);
    fields := SortByDot([own] + part.nodes);
    elems := part.elems;
    WrittenPreserves(nodes, ids, root.value.val, own, part, fields + elems);
    WrittenOnce(fields, elems);
  }

  // ----- stamping the copy -------------------------------------------------

  function Stamped(e: Entry, stamp: nat): Entry
    requires e.node.Plain?
  {
    Entry(e.path, Plain(e.node.val, [stamp]))
  }

  lemma {:induction false} StampIsDot(e: Entry, stamp: nat)
    requires e.node.Plain?
    ensures DotOf(Stamped(e, stamp)) == stamp
  {
    assert [stamp][..0] == [];
  }

  /** Fields in order under a rising clock. */
  ghost predicate Restamps(fields: seq<Entry>, stamps: seq<nat>) {
    && S.SortedBy(fields, DotLe) && Once(fields) && |stamps| == |fields| && S.Ascending(stamps)
    && forall e :: e in fields ==> e.node.Plain? && P.PathOk(e.path)
  }

  /** Stamping with a rising clock keeps the order of highest dots, ties by path. */
  lemma {:induction false} RestampKeepsOrder(fields: seq<Entry>, stamps: seq<nat>, i: nat, j: nat)
    requires Restamps(fields, stamps) && i < |fields| && j < |fields|
    ensures DotOf(Stamped(fields[i], stamps[i])) <= DotOf(Stamped(fields[j], stamps[j])) <==>
            DotLe(fields[i], fields[j])
  {
    StampIsDot(fields[i], stamps[i]);
    StampIsDot(fields[j], stamps[j]);
    if i != j { DotStrict(fields[i], fields[j]); }
    Lex.Total(P.EncodePath(fields[i].path), P.EncodePath(fields[j].path));
  }

  /** The greatest of any group of fields: highest dot, ties by path. */
  ghost predicate Wins(fields: seq<Entry>, group: set<nat>, w: nat)
    requires w < |fields|
  {
    forall j :: j in group && j < |fields| ==> DotLe(fields[j], fields[w])
  }

  ghost predicate WinsStamped(fields: seq<Entry>, stamps: seq<nat>, group: set<nat>, w: nat)
    requires Restamps(fields, stamps) && w < |fields|
  {
    forall j :: j in group && j < |fields| ==>
      DotOf(Stamped(fields[j], stamps[j])) <= DotOf(Stamped(fields[w], stamps[w]))
  }

  /** No winner of any group of fields flips at the destination. */
  lemma {:induction false} WinnersStay(fields: seq<Entry>, stamps: seq<nat>, group: set<nat>, w: nat)
    requires Restamps(fields, stamps) && w < |fields|
    ensures WinsStamped(fields, stamps, group, w) <==> Wins(fields, group, w)
  {
    forall j | j in group && j < |fields|
      ensures DotOf(Stamped(fields[j], stamps[j])) <= DotOf(Stamped(fields[w], stamps[w])) <==>
              DotLe(fields[j], fields[w])
    {
      RestampKeepsOrder(fields, stamps, j, w);
    }
  }
}
