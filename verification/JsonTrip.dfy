/** Rebuilding a flattened document gives it back, whatever order the records come in. */
module JsonTrip {
  import opened Options
  import opened Lex
  import opened JsonDoc
  import opened JsonBuild
  import S = Sorting
  import R = Rga
  import H = RgaChain

  /** Every array gets distinct ids, none of them the sentinel. */
  ghost predicate IdsOk(ids: Ids) {
    && (forall path, i :: ids(path, i) != R.HEAD)
    && (forall path, i, j :: i != j ==> ids(path, i) != ids(path, j))
  }

  function Slot(path: Path, v: Json, ids: Ids, i: nat): Path
    requires i < Arity(v)
  {
    path + [SegOf(path, v, ids, i)]
  }

  lemma {:induction false} SegsDiffer(path: Path, v: Json, ids: Ids, i: nat, j: nat)
    requires Wf(v) && IdsOk(ids) && i < Arity(v) && j < Arity(v) && i != j
    ensures SegOf(path, v, ids, i) != SegOf(path, v, ids, j)
  {
    if v.Object? {
      assert i < j ==> Lt(v.members[i].name, v.members[j].name);
      assert j < i ==> Lt(v.members[j].name, v.members[i].name);
    }
  }

  lemma {:induction false} ChildWf(v: Json, i: nat)
    requires Wf(v) && i < Arity(v)
    ensures Wf(ChildOf(v, i))
  {}

  // ----- which records a value has -----------------------------------------

  predicate Strictly(q: Path, path: Path) {
    |q| > |path| && q[..|path|] == path
  }

  /** r is the record of the i-th child, or lies below it. */
  predicate InSlot(path: Path, v: Json, ids: Ids, i: nat, r: Record)
    requires i < Arity(v)
  {
    r == Record(Slot(path, v, ids, i), NodeOf(path, v, ids, i)) ||
      r in Children(Slot(path, v, ids, i), ChildOf(v, i), ids)
  }

  lemma {:induction false} SlotsIff(path: Path, v: Json, ids: Ids, n: nat, r: Record)
    requires n <= Arity(v)
    ensures r in Slots(path, v, ids, n) <==> exists i: nat :: i < n && InSlot(path, v, ids, i, r)
  {
    if n > 0 {
      SlotsIff(path, v, ids, n - 1, r);
      assert r in Slots(path, v, ids, n) <==> r in Slots(path, v, ids, n - 1) || InSlot(path, v, ids, n - 1, r);
    }
  }

  lemma {:induction false} ChildrenBelow(path: Path, v: Json, ids: Ids, r: Record)
    requires r in Children(path, v, ids)
    ensures Strictly(r.path, path)
    decreases v
  {
    SlotsIff(path, v, ids, Arity(v), r);
    var i: nat :| i < Arity(v) && InSlot(path, v, ids, i, r);
    SlotBelow(path, v, ids, i, r);
  }

  lemma {:induction false} SlotBelow(path: Path, v: Json, ids: Ids, i: nat, r: Record)
    requires i < Arity(v) && InSlot(path, v, ids, i, r)
    ensures Strictly(r.path, path) && r.path[|path|] == SegOf(path, v, ids, i)
    ensures r.path != Slot(path, v, ids, i) ==> Strictly(r.path, Slot(path, v, ids, i))
    decreases v, 0
  {
    var p := Slot(path, v, ids, i);
    if r.path != p {
      ChildrenBelow(p, ChildOf(v, i), ids, r);
      Deeper(r.path, path, SegOf(path, v, ids, i));
    } else if r in Children(p, ChildOf(v, i), ids) {
      ChildrenBelow(p, ChildOf(v, i), ids, r);
    }
  }

  lemma {:induction false} Deeper(q: Path, path: Path, seg: Seg)
    requires Strictly(q, path + [seg])
    ensures Strictly(q, path) && q[|path|] == seg
  {
    var p := path + [seg];
    assert q[..|path|] == p[..|path|] == path;
    assert q[..|p|][|path|] == p[|path|];
  }

  /** The records strictly below a path are exactly those of v. */
  ghost predicate Covers(nodes: seq<Record>, path: Path, v: Json, ids: Ids) {
    forall r: Record :: Strictly(r.path, path) ==> (r in nodes <==> r in Children(path, v, ids))
  }

  lemma {:induction false} CoversChild(nodes: seq<Record>, path: Path, v: Json, ids: Ids, i: nat)
    requires Covers(nodes, path, v, ids) && Wf(v) && IdsOk(ids) && i < Arity(v)
    ensures Covers(nodes, Slot(path, v, ids, i), ChildOf(v, i), ids)
  {
    var p := Slot(path, v, ids, i);
    forall r: Record | Strictly(r.path, p) ensures r in nodes <==> r in Children(p, ChildOf(v, i), ids) {
      Deeper(r.path, path, SegOf(path, v, ids, i));
      SlotsIff(path, v, ids, Arity(v), r);
      if r in Children(path, v, ids) {
        var j: nat :| j < Arity(v) && InSlot(path, v, ids, j, r);
        SlotBelow(path, v, ids, j, r);
        if j != i { SegsDiffer(path, v, ids, i, j); }
      }
      if r in Children(p, ChildOf(v, i), ids) { assert InSlot(path, v, ids, i, r); }
    }
  }

  /** The records directly under a path are those of the children of v. */
  lemma {:induction false} DirectKids(nodes: seq<Record>, path: Path, v: Json, ids: Ids, r: Record)
    requires Covers(nodes, path, v, ids) && ChildOfPath(r.path, path)
    ensures r in nodes <==> exists i: nat :: i < Arity(v) && r == Record(Slot(path, v, ids, i), NodeOf(path, v, ids, i))
  {
    assert Strictly(r.path, path);
    SlotsIff(path, v, ids, Arity(v), r);
    if r in nodes {
      var i: nat :| i < Arity(v) && InSlot(path, v, ids, i, r);
      SlotBelow(path, v, ids, i, r);
      if r in Children(Slot(path, v, ids, i), ChildOf(v, i), ids) {
        ChildrenBelow(Slot(path, v, ids, i), ChildOf(v, i), ids, r);
      }
    }
    if i: nat :| i < Arity(v) && r == Record(Slot(path, v, ids, i), NodeOf(path, v, ids, i)) {
      assert InSlot(path, v, ids, i, r);
    }
  }

  // ----- the children are listed in document order -------------------------

  function KidAt(path: Path, v: Json, ids: Ids, i: nat): Kid
    requires i < Arity(v)
  {
    Kid(SegOf(path, v, ids, i), JvalOf(ChildOf(v, i)))
  }

  function KidsUpTo(path: Path, v: Json, ids: Ids, n: nat): (r: seq<Kid>)
    requires n <= Arity(v)
    ensures |r| == n && forall i :: 0 <= i < n ==> r[i] == KidAt(path, v, ids, i)
  {
    if n == 0 then [] else KidsUpTo(path, v, ids, n - 1) + [KidAt(path, v, ids, n - 1)]
  }

  predicate ByName(s: seq<Kid>) {
    forall i, j :: 0 <= i < j < |s| ==> Lt(NameOf(s[i]), NameOf(s[j]))
  }

  lemma {:induction false} ByNameUnique(s: seq<Kid>, t: seq<Kid>)
    requires ByName(s) && ByName(t) && forall k :: k in s <==> k in t
    ensures s == t
  {
    var lt := (x: Kid, y: Kid) => Lt(NameOf(x), NameOf(y));
    forall x, y | lt(x, y) ensures !lt(y, x) {
      if lt(y, x) { Antisymmetric(NameOf(x), NameOf(y)); }
    }
    S.StrictUnique(s, t, lt);
  }

  lemma {:induction false} FieldsAre(nodes: seq<Record>, path: Path, v: Json, ids: Ids, k: Kid)
    requires Covers(nodes, path, v, ids) && v.Object?
    ensures k in Fields(nodes, path) <==> k in KidsUpTo(path, v, ids, Arity(v))
  {
    var all := KidsUpTo(path, v, ids, Arity(v));
    FieldsIff(nodes, path, k);
    if k in Fields(nodes, path) {
      var r :| r in nodes && IsMember(r, path) && k == Kid(r.path[|path|], r.node.val);
      DirectKids(nodes, path, v, ids, r);
      var i: nat :| i < Arity(v) && r == Record(Slot(path, v, ids, i), NodeOf(path, v, ids, i));
      assert all[i] == k;
    }
    if k in all {
      var i :| 0 <= i < |all| && all[i] == k;
      var r := Record(Slot(path, v, ids, i), NodeOf(path, v, ids, i));
      assert ChildOfPath(r.path, path) by { assert r.path[..|path|] == path; }
      DirectKids(nodes, path, v, ids, r);
      assert IsMember(r, path);
    }
  }

  lemma {:induction false} FieldsDistinct(nodes: seq<Record>, path: Path)
    requires Keyed(nodes)
    ensures S.Distinct(Fields(nodes, path))
  {
    if nodes != [] {
      var front, last := nodes[..|nodes| - 1], nodes[|nodes| - 1];
      KeyedFront(nodes);
      FieldsDistinct(front, path);
      var fs := Fields(front, path);
      if IsMember(last, path) {
        forall i | 0 <= i < |fs| ensures fs[i] != Kid(last.path[|path|], last.node.val) {
          FieldsIff(front, path, fs[i]);
          var r :| r in front && IsMember(r, path) && fs[i] == Kid(r.path[|path|], r.node.val);
          if r.path[|path|] == last.path[|path|] { SamePath(r.path, last.path, path); }
        }
      }
    }
  }

  lemma {:induction false} NameOrder()
    ensures S.TotalPreorder(NameLe)
  {
    forall x, y ensures NameLe(x, y) || NameLe(y, x) { Total(NameOf(x), NameOf(y)); }
    forall x, y, z | NameLe(x, y) && NameLe(y, z) ensures NameLe(x, z) { Transitive(NameOf(x), NameOf(y), NameOf(z)); }
  }

  lemma {:induction false} SortedByName(s: seq<Kid>, all: seq<Kid>)
    requires S.SortedBy(s, NameLe) && S.Distinct(s) && ByName(all) && forall k :: k in s <==> k in all
    ensures s == all
  {
    forall i, j | 0 <= i < j < |s| ensures Lt(NameOf(s[i]), NameOf(s[j])) {
      assert NameLe(s[i], s[j]);
      assert s[i] in all && s[j] in all;
      var a :| 0 <= a < |all| && all[a] == s[i];
      var b :| 0 <= b < |all| && all[b] == s[j];
      assert a != b;
      assert a < b ==> Lt(NameOf(all[a]), NameOf(all[b]));
      assert b < a ==> Lt(NameOf(all[b]), NameOf(all[a]));
    }
    ByNameUnique(s, all);
  }

  lemma {:induction false} ObjectKids(nodes: seq<Record>, path: Path, v: Json, ids: Ids)
    requires Keyed(nodes) && Covers(nodes, path, v, ids) && Wf(v) && v.Object?
    ensures Kids(nodes, path, JObj) == KidsUpTo(path, v, ids, Arity(v))
  {
    var all, fs := KidsUpTo(path, v, ids, Arity(v)), Fields(nodes, path);
    var s := S.Sort(fs, NameLe);
    NameOrder();
    S.SortSorted(fs, NameLe);
    FieldsDistinct(nodes, path);
    S.SameElements(fs, s);
    forall k ensures k in s <==> k in all { FieldsAre(nodes, path, v, ids, k); }
    SortedByName(s, all);
  }

  /** The ids of the first n elements of the array at a path. */
  function EidSeq(path: Path, ids: Ids, n: nat): (r: seq<nat>)
    ensures |r| == n && forall i :: 0 <= i < n ==> r[i] == ids(path, i)
  {
    if n == 0 then [] else EidSeq(path, ids, n - 1) + [ids(path, n - 1)]
  }

  lemma {:induction false} ElementAt(nodes: seq<Record>, path: Path, v: Json, ids: Ids, i: nat)
    requires Covers(nodes, path, v, ids) && v.Array? && i < Arity(v)
    ensures var r := Record(Slot(path, v, ids, i), NodeOf(path, v, ids, i));
      r in nodes && IsElement(r, path) && r.path[|path|].eid == ids(path, i)
  {
    var r := Record(Slot(path, v, ids, i), NodeOf(path, v, ids, i));
    assert ChildOfPath(r.path, path) by { assert r.path[..|path|] == path; }
    DirectKids(nodes, path, v, ids, r);
  }

  function ElemAt(path: Path, ids: Ids, i: nat): R.Elem {
    R.Elem(ids(path, i), if i == 0 then R.HEAD else ids(path, i - 1), true)
  }

  lemma {:induction false} ElementsAre(nodes: seq<Record>, path: Path, v: Json, ids: Ids, e: R.Elem)
    requires Covers(nodes, path, v, ids) && v.Array?
    ensures e in Elements(nodes, path) <==> exists i: nat :: i < Arity(v) && e == ElemAt(path, ids, i)
  {
    ElementsIff(nodes, path, e);
    if e in Elements(nodes, path) {
      var r :| r in nodes && IsElement(r, path) && e == R.Elem(r.path[|path|].eid, r.node.left, r.node.live);
      DirectKids(nodes, path, v, ids, r);
      var i: nat :| i < Arity(v) && r == Record(Slot(path, v, ids, i), NodeOf(path, v, ids, i));
      assert e == ElemAt(path, ids, i);
    }
    if i: nat :| i < Arity(v) && e == ElemAt(path, ids, i) {
      ElementAt(nodes, path, v, ids, i);
    }
  }

  lemma {:induction false} ChainedBy(es: seq<R.Elem>, path: Path, ids: Ids, n: nat)
    requires R.Wf(es) && IdsOk(ids) && forall e :: e in es <==> exists i: nat :: i < n && e == ElemAt(path, ids, i)
    ensures H.Chained(es, EidSeq(path, ids, n))
  {
    var c := EidSeq(path, ids, n);
    forall i | 0 <= i < n ensures R.Elem(c[i], H.LeftOf(c, i), true) in es { ElemIs(path, ids, n, i); }
    forall e | e in es ensures exists i :: 0 <= i < |c| && e == R.Elem(c[i], H.LeftOf(c, i), true) {
      var i: nat :| i < n && e == ElemAt(path, ids, i);
      ElemIs(path, ids, n, i);
    }
    SeqIds(path, ids, n);
  }

  lemma {:induction false} ElemIs(path: Path, ids: Ids, n: nat, i: nat)
    requires i < n
    ensures var c := EidSeq(path, ids, n); R.Elem(c[i], H.LeftOf(c, i), true) == ElemAt(path, ids, i)
  {}

  lemma {:induction false} SeqIds(path: Path, ids: Ids, n: nat)
    requires IdsOk(ids)
    ensures S.Distinct(EidSeq(path, ids, n)) && forall e :: e in EidSeq(path, ids, n) ==> e != R.HEAD
  {}

  /** The array at a path lists its elements as they were written. */
  lemma {:induction false} ArrayOrder(nodes: seq<Record>, path: Path, v: Json, ids: Ids)
    requires Keyed(nodes) && Covers(nodes, path, v, ids) && IdsOk(ids) && v.Array?
    ensures R.Wf(Elements(nodes, path))
    ensures var order := R.Order(Elements(nodes, path));
      |order| == Arity(v) && forall i :: 0 <= i < Arity(v) ==> order[i] == R.Item(ids(path, i), true)
  {
    var es, n := Elements(nodes, path), Arity(v);
    ElementsWf(nodes, path);
    forall e ensures e in es <==> exists i: nat :: i < n && e == ElemAt(path, ids, i) {
      ElementsAre(nodes, path, v, ids, e);
    }
    ChainedBy(es, path, ids, n);
    ChainItems(es, path, ids, n);
  }

  lemma {:induction false} ChainItems(es: seq<R.Elem>, path: Path, ids: Ids, n: nat)
    requires H.Chained(es, EidSeq(path, ids, n))
    ensures |R.Order(es)| == n && forall i :: 0 <= i < n ==> R.Order(es)[i] == R.Item(ids(path, i), true)
  {
    H.ChainOrder(es, EidSeq(path, ids, n));
    H.ItemsAt(EidSeq(path, ids, n), 0);
  }

  lemma {:induction false} LiveKidsAre(nodes: seq<Record>, path: Path, v: Json, ids: Ids, order: seq<R.Item>, n: nat)
    requires Keyed(nodes) && Covers(nodes, path, v, ids) && v.Array? && n <= Arity(v) && |order| == n
    requires forall i :: 0 <= i < n ==> order[i] == R.Item(ids(path, i), true)
    ensures LiveKids(nodes, path, order) == KidsUpTo(path, v, ids, n)
  {
    if n > 0 {
      LiveKidsAre(nodes, path, v, ids, order[..n - 1], n - 1);
      ElementAt(nodes, path, v, ids, n - 1);
      ValAtIs(nodes, path, Record(Slot(path, v, ids, n - 1), NodeOf(path, v, ids, n - 1)));
    }
  }

  lemma {:induction false} ArrayKids(nodes: seq<Record>, path: Path, v: Json, ids: Ids)
    requires Keyed(nodes) && Covers(nodes, path, v, ids) && IdsOk(ids) && v.Array?
    ensures Kids(nodes, path, JArr) == KidsUpTo(path, v, ids, Arity(v))
    ensures Last(nodes, path) == LastId(path, v, ids)
  {
    ArrayOrder(nodes, path, v, ids);
    LiveKidsAre(nodes, path, v, ids, R.Order(Elements(nodes, path)), Arity(v));
  }

  /** The id of the last element. */
  function LastId(path: Path, v: Json, ids: Ids): nat {
    if Arity(v) == 0 then R.HEAD else ids(path, Arity(v) - 1)
  }

  // ----- the round trip ----------------------------------------------------

  /** The arrays of a value: at each, its ids in document order and the last of them. */
  function ArraysUpTo(path: Path, v: Json, ids: Ids, n: nat): map<Path, ArrInfo>
    requires n <= Arity(v)
    decreases v, n
  {
    if n == 0 then map[]
    else ArraysUpTo(path, v, ids, n - 1) + Arrays(Slot(path, v, ids, n - 1), ChildOf(v, n - 1), ids)
  }

  function Arrays(path: Path, v: Json, ids: Ids): map<Path, ArrInfo>
    decreases v, Arity(v) + 1
  {
    var below := ArraysUpTo(path, v, ids, Arity(v));
    if v.Array? then
      below[path := ArrInfo(EidSeq(path, ids, Arity(v)), LastId(path, v, ids))]
    else below
  }

  function DocsUpTo(path: Path, v: Json, ids: Ids, n: nat): (r: seq<Doc>)
    requires n <= Arity(v)
    ensures |r| == n
  {
    if n == 0 then [] else DocsUpTo(path, v, ids, n - 1) + [DocAt(path, v, ids, n - 1)]
  }

  function DocAt(path: Path, v: Json, ids: Ids, i: nat): Doc
    requires i < Arity(v)
  {
    Doc(ChildOf(v, i), Arrays(Slot(path, v, ids, i), ChildOf(v, i), ids))
  }

  lemma {:induction false} DocsSnoc(docs: seq<Doc>, d: Doc)
    ensures IndexOf(docs + [d]) == IndexOf(docs) + d.arrays && ItemsOf(docs + [d]) == ItemsOf(docs) + [d.value]
  {
    assert (docs + [d])[..|docs|] == docs;
  }

  lemma {:induction false} MembersSnoc(kids: seq<Kid>, k: Kid, docs: seq<Doc>, d: Doc)
    requires |kids| == |docs|
    ensures MembersOf(kids + [k], docs + [d]) == MembersOf(kids, docs) + [Member(NameOf(k), d.value)]
  {
    assert (kids + [k])[..|kids|] == kids && (docs + [d])[..|kids|] == docs;
  }

  lemma {:induction false} IndexParts(path: Path, v: Json, ids: Ids, n: nat)
    requires n <= Arity(v)
    ensures IndexOf(DocsUpTo(path, v, ids, n)) == ArraysUpTo(path, v, ids, n)
  {
    if n > 0 {
      IndexParts(path, v, ids, n - 1);
      DocsSnoc(DocsUpTo(path, v, ids, n - 1), DocAt(path, v, ids, n - 1));
    }
  }

  lemma {:induction false} MemberParts(path: Path, v: Json, ids: Ids, n: nat)
    requires n <= Arity(v) && v.Object?
    ensures MembersOf(KidsUpTo(path, v, ids, n), DocsUpTo(path, v, ids, n)) == v.members[..n]
  {
    if n > 0 {
      MemberParts(path, v, ids, n - 1);
      MembersSnoc(KidsUpTo(path, v, ids, n - 1), KidAt(path, v, ids, n - 1),
        DocsUpTo(path, v, ids, n - 1), DocAt(path, v, ids, n - 1));
      Grow(v.members, n);
    }
  }

  lemma {:induction false} Grow<X>(s: seq<X>, n: nat)
    requires 0 < n <= |s|
    ensures s[..n] == s[..n - 1] + [s[n - 1]]
  {}

  lemma {:induction false} ItemParts(path: Path, v: Json, ids: Ids, n: nat)
    requires n <= Arity(v) && v.Array?
    ensures ItemsOf(DocsUpTo(path, v, ids, n)) == v.items[..n]
  {
    if n > 0 {
      ItemParts(path, v, ids, n - 1);
      DocsSnoc(DocsUpTo(path, v, ids, n - 1), DocAt(path, v, ids, n - 1));
      Grow(v.items, n);
    }
  }

  lemma {:induction false} EidsSnoc(kids: seq<Kid>, eid: nat, val: JVal)
    ensures EidsOf(kids + [Kid(Elem(eid), val)]) == EidsOf(kids) + [eid]
  {
    assert (kids + [Kid(Elem(eid), val)])[..|kids|] == kids;
  }

  lemma {:induction false} EidParts(path: Path, v: Json, ids: Ids, n: nat)
    requires n <= Arity(v) && v.Array?
    ensures EidsOf(KidsUpTo(path, v, ids, n)) == EidSeq(path, ids, n)
  {
    if n > 0 {
      EidParts(path, v, ids, n - 1);
      var front := KidsUpTo(path, v, ids, n - 1);
      EidsSnoc(front, ids(path, n - 1), JvalOf(ChildOf(v, n - 1)));
      assert KidsUpTo(path, v, ids, n) == front + [Kid(Elem(ids(path, n - 1)), JvalOf(ChildOf(v, n - 1)))];
    }
  }

  lemma {:induction false} ScalarTrip(v: Json)
    requires Wf(v) && !v.Object? && !v.Array?
    ensures ScalarValue(JvalOf(v)) == v
  {}

  lemma {:induction false} Assembled(path: Path, v: Json, ids: Ids, last: nat)
    requires Wf(v) && (v.Array? ==> last == LastId(path, v, ids))
    ensures Assemble(path, JvalOf(v), KidsUpTo(path, v, ids, Arity(v)), DocsUpTo(path, v, ids, Arity(v)), last) ==
            Doc(v, Arrays(path, v, ids))
  {
    var n := Arity(v);
    IndexParts(path, v, ids, n);
    if v.Object? {
      MemberParts(path, v, ids, n);
      assert v.members[..n] == v.members;
    } else if v.Array? {
      ItemParts(path, v, ids, n);
      EidParts(path, v, ids, n);
      assert v.items[..n] == v.items;
    } else {
      ScalarTrip(v);
    }
  }

  lemma {:induction false} KidsAre(nodes: seq<Record>, path: Path, v: Json, ids: Ids)
    requires Keyed(nodes) && Covers(nodes, path, v, ids) && Wf(v) && IdsOk(ids)
    ensures Kids(nodes, path, JvalOf(v)) == KidsUpTo(path, v, ids, Arity(v))
    ensures v.Array? ==> Last(nodes, path) == LastId(path, v, ids)
  {
    if v.Object? { ObjectKids(nodes, path, v, ids); }
    if v.Array? { ArrayKids(nodes, path, v, ids); }
  }

  /** Materializing the records of a value yields the value, and the ids of its arrays. */
  lemma {:induction false} Rebuilds(nodes: seq<Record>, path: Path, v: Json, ids: Ids)
    requires Keyed(nodes) && Covers(nodes, path, v, ids) && Wf(v) && IdsOk(ids)
    ensures Materialize(nodes, path, JvalOf(v)) == Doc(v, Arrays(path, v, ids))
    decreases v, 1
  {
    KidsAre(nodes, path, v, ids);
    KidsRecorded(nodes, path, JvalOf(v));
    forall i | 0 <= i < Arity(v) ensures RebuildsAt(nodes, path, v, ids, i) { RebuildsOne(nodes, path, v, ids, i); }
    RebuildsAll(nodes, path, v, ids, Arity(v));
    Assembled(path, v, ids, Last(nodes, path));
  }

  /** The i-th child is rebuilt. */
  ghost predicate RebuildsAt(nodes: seq<Record>, path: Path, v: Json, ids: Ids, i: nat)
    requires Keyed(nodes) && i < Arity(v)
  {
    var k := KidAt(path, v, ids, i);
    Materialize(nodes, path + [k.seg], k.val) == DocAt(path, v, ids, i)
  }

  lemma {:induction false} RebuildsAll(nodes: seq<Record>, path: Path, v: Json, ids: Ids, n: nat)
    requires Keyed(nodes) && n <= Arity(v) && Recorded(nodes, path, KidsUpTo(path, v, ids, Arity(v)))
    requires forall i :: 0 <= i < Arity(v) ==> RebuildsAt(nodes, path, v, ids, i)
    ensures Recorded(nodes, path, KidsUpTo(path, v, ids, n))
    ensures MaterializeAll(nodes, path, KidsUpTo(path, v, ids, n)) == DocsUpTo(path, v, ids, n)
    decreases n
  {
    if n == 0 {
      RebuildsNone(nodes, path, v, ids);
    } else {
      RebuildsAll(nodes, path, v, ids, n - 1);
      RebuildsNext(nodes, path, v, ids, n - 1);
    }
  }

  lemma {:induction false} RebuildsNone(nodes: seq<Record>, path: Path, v: Json, ids: Ids)
    requires Keyed(nodes)
    ensures Recorded(nodes, path, KidsUpTo(path, v, ids, 0))
    ensures MaterializeAll(nodes, path, KidsUpTo(path, v, ids, 0)) == DocsUpTo(path, v, ids, 0)
  {
    assert KidsUpTo(path, v, ids, 0) == [];
  }

  lemma {:induction false} RebuildsNext(nodes: seq<Record>, path: Path, v: Json, ids: Ids, i: nat)
    requires Keyed(nodes) && i < Arity(v) && RebuildsAt(nodes, path, v, ids, i)
    requires Recorded(nodes, path, KidsUpTo(path, v, ids, Arity(v))) && Recorded(nodes, path, KidsUpTo(path, v, ids, i))
    requires MaterializeAll(nodes, path, KidsUpTo(path, v, ids, i)) == DocsUpTo(path, v, ids, i)
    ensures Recorded(nodes, path, KidsUpTo(path, v, ids, i + 1))
    ensures MaterializeAll(nodes, path, KidsUpTo(path, v, ids, i + 1)) == DocsUpTo(path, v, ids, i + 1)
  {
    Prefix(path, v, ids, i);
    Prefix(path, v, ids, i + 1);
    AllSnoc(nodes, path, KidsUpTo(path, v, ids, Arity(v)), i);
  }

  lemma {:induction false} RebuildsOne(nodes: seq<Record>, path: Path, v: Json, ids: Ids, i: nat)
    requires Keyed(nodes) && Covers(nodes, path, v, ids) && Wf(v) && IdsOk(ids) && i < Arity(v)
    ensures RebuildsAt(nodes, path, v, ids, i)
    decreases v, 0
  {
    CoversChild(nodes, path, v, ids, i);
    ChildWf(v, i);
    Rebuilds(nodes, Slot(path, v, ids, i), ChildOf(v, i), ids);
  }

  lemma {:induction false} Prefix(path: Path, v: Json, ids: Ids, n: nat)
    requires n <= Arity(v)
    ensures KidsUpTo(path, v, ids, Arity(v))[..n] == KidsUpTo(path, v, ids, n)
  {}

  // ----- whole documents ---------------------------------------------------

  predicate PathsDiffer(rs: seq<Record>) {
    forall i, j :: 0 <= i < j < |rs| ==> rs[i].path != rs[j].path
  }

  predicate PathsApart(a: seq<Record>, b: seq<Record>) {
    forall x, y :: x in a && y in b ==> x.path != y.path
  }

  lemma {:induction false} DifferConcat(a: seq<Record>, b: seq<Record>)
    requires PathsDiffer(a) && PathsDiffer(b) && PathsApart(a, b)
    ensures PathsDiffer(a + b)
  {
    var s := a + b;
    forall i, j | 0 <= i < j < |s| ensures s[i].path != s[j].path {
      if i < |a| <= j { assert s[i] in a && s[j] in b; }
    }
  }

  lemma {:induction false} SlotDiffers(path: Path, v: Json, ids: Ids, node: Node)
    requires PathsDiffer(Children(path, v, ids))
    ensures PathsDiffer([Record(path, node)] + Children(path, v, ids))
  {
    forall x, y | x in [Record(path, node)] && y in Children(path, v, ids) ensures x.path != y.path {
      ChildrenBelow(path, v, ids, y);
    }
    DifferConcat([Record(path, node)], Children(path, v, ids));
  }

  lemma {:induction false} ChildrenDiffer(path: Path, v: Json, ids: Ids)
    requires Wf(v) && IdsOk(ids)
    ensures PathsDiffer(Children(path, v, ids))
    decreases v, Arity(v) + 1
  {
    SlotsDiffer(path, v, ids, Arity(v));
  }

  /** The record of a child and those below it. */
  function BlockOf(path: Path, v: Json, ids: Ids, i: nat): seq<Record>
    requires i < Arity(v)
  {
    [Record(Slot(path, v, ids, i), NodeOf(path, v, ids, i))] + Children(Slot(path, v, ids, i), ChildOf(v, i), ids)
  }

  lemma {:induction false} SlotsSnoc(path: Path, v: Json, ids: Ids, n: nat)
    requires n < Arity(v)
    ensures Slots(path, v, ids, n + 1) == Slots(path, v, ids, n) + BlockOf(path, v, ids, n)
  {
    var front, p := Slots(path, v, ids, n), Slot(path, v, ids, n);
    var own, below := Record(p, NodeOf(path, v, ids, n)), Children(p, ChildOf(v, n), ids);
    assert front + [own] + below == front + ([own] + below);
  }

  lemma {:induction false} BlocksApart(path: Path, v: Json, ids: Ids, n: nat)
    requires Wf(v) && IdsOk(ids) && n < Arity(v)
    ensures PathsApart(Slots(path, v, ids, n), BlockOf(path, v, ids, n))
  {
    forall x, y | x in Slots(path, v, ids, n) && y in BlockOf(path, v, ids, n) ensures x.path != y.path {
      SlotsIff(path, v, ids, n, x);
      var i: nat :| i < n && InSlot(path, v, ids, i, x);
      SlotBelow(path, v, ids, i, x);
      SlotBelow(path, v, ids, n, y);
      SegsDiffer(path, v, ids, i, n);
    }
  }

  lemma {:induction false} SlotsJoin(path: Path, v: Json, ids: Ids, n: nat)
    requires Wf(v) && IdsOk(ids) && n < Arity(v)
    requires PathsDiffer(Slots(path, v, ids, n)) && PathsDiffer(BlockOf(path, v, ids, n))
    ensures PathsDiffer(Slots(path, v, ids, n + 1))
  {
    BlocksApart(path, v, ids, n);
    DifferConcat(Slots(path, v, ids, n), BlockOf(path, v, ids, n));
    SlotsSnoc(path, v, ids, n);
  }

  lemma {:induction false} SlotsDiffer(path: Path, v: Json, ids: Ids, n: nat)
    requires Wf(v) && IdsOk(ids) && n <= Arity(v)
    ensures PathsDiffer(Slots(path, v, ids, n))
    decreases v, n
  {
    if n > 0 {
      SlotsDiffer(path, v, ids, n - 1);
      BlockDiffers(path, v, ids, n - 1);
      SlotsJoin(path, v, ids, n - 1);
    }
  }

  lemma {:induction false} BlockDiffers(path: Path, v: Json, ids: Ids, i: nat)
    requires Wf(v) && IdsOk(ids) && i < Arity(v)
    ensures PathsDiffer(BlockOf(path, v, ids, i))
    decreases v, 0
  {
    ChildWf(v, i);
    ChildrenDiffer(Slot(path, v, ids, i), ChildOf(v, i), ids);
    SlotDiffers(Slot(path, v, ids, i), ChildOf(v, i), ids, NodeOf(path, v, ids, i));
  }

  /** Paths of a flattened document hold no sentinel. */
  lemma {:induction false} NoSentinel(path: Path, v: Json, ids: Ids, r: Record)
    requires IdsOk(ids) && r in Children(path, v, ids) && forall i :: 0 <= i < |path| ==> path[i] != Elem(R.HEAD)
    ensures forall i :: 0 <= i < |r.path| ==> r.path[i] != Elem(R.HEAD)
    decreases v
  {
    SlotsIff(path, v, ids, Arity(v), r);
    var i: nat :| i < Arity(v) && InSlot(path, v, ids, i, r);
    if r.path != Slot(path, v, ids, i) { NoSentinel(Slot(path, v, ids, i), ChildOf(v, i), ids, r); }
  }

  lemma {:induction false} DecomposeKeyed(v: Json, ids: Ids)
    requires Wf(v) && IdsOk(ids)
    ensures Keyed(Decompose([], v, ids))
  {
    var all := Decompose([], v, ids);
    ChildrenDiffer([], v, ids);
    SlotDiffers([], v, ids, MapNode(JvalOf(v)));
    forall r | r in all ensures forall i :: 0 <= i < |r.path| ==> r.path[i] != Elem(R.HEAD) {
      if r in Children([], v, ids) { NoSentinel([], v, ids, r); }
    }
  }

  /** Rearranging records keeps their paths distinct. */
  lemma {:induction false} KeyedArrangement(nodes: seq<Record>, all: seq<Record>)
    requires Keyed(all) && multiset(nodes) == multiset(all)
    ensures Keyed(nodes) && forall r :: r in nodes <==> r in all
  {
    S.SameElements(all, nodes);
    assert S.Distinct(all);
    forall i, j | 0 <= i < j < |nodes| ensures nodes[i].path != nodes[j].path {
      assert nodes[i] in all && nodes[j] in all && nodes[i] != nodes[j];
      var a :| 0 <= a < |all| && all[a] == nodes[i];
      var b :| 0 <= b < |all| && all[b] == nodes[j];
    }
  }

  lemma {:induction false} RootIs(nodes: seq<Record>, node: Node)
    requires Keyed(nodes) && Record([], node) in nodes
    ensures RootOf(nodes) == Some(node)
  {
    var front, last := nodes[..|nodes| - 1], nodes[|nodes| - 1];
    KeyedFront(nodes);
    assert nodes == front + [last];
    if last != Record([], node) { RootIs(front, node); }
  }

  /**
   * For every value and any choice of element ids, the records of the flattened
   * value in any arrangement build the value again, and the index lists the ids
   * of every array in document order.
   */
  lemma {:induction false} RoundTrip(v: Json, ids: Ids, nodes: seq<Record>)
    requires Wf(v) && IdsOk(ids) && multiset(nodes) == multiset(Decompose([], v, ids))
    ensures Keyed(nodes) && Built(nodes) == Some(Doc(v, Arrays([], v, ids)))
  {
    var all := Decompose([], v, ids);
    DecomposeKeyed(v, ids);
    KeyedArrangement(nodes, all);
    assert Record([], MapNode(JvalOf(v))) in all;
    RootIs(nodes, MapNode(JvalOf(v)));
    Rebuilds(nodes, [], v, ids);
  }
}
