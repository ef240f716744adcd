/**
 * JSON documents as one record per path: flattening a value into records, and
 * rebuilding the value from the records in whatever order a scan yields them.
 *
 * Paths are lists of segments. An element id is chosen for every array position
 * by `ids`, from the path of the array and the position.
 */
module JsonDoc {
  import opened ByteStrings
  import opened Lex
  import S = Sorting
  import R = Rga

  const I64_MAX: nat := 0x7FFF_FFFF_FFFF_FFFF
  const U64_MAX: nat := 0xFFFF_FFFF_FFFF_FFFF

  datatype Number = Unsigned(n: nat) | Negative(i: int) | Float(bits: nat)

  datatype Member = Member(name: Bytes, value: Json)

  /** A value; the members of an object are listed by ascending name. */
  datatype Json =
    | Null
    | Bool(b: bool)
    | Num(n: Number)
    | Text(s: Bytes)
    | Object(members: seq<Member>)
    | Array(items: seq<Json>)

  /** The value part of a record; containers carry only their kind. */
  datatype JVal =
    | JNull
    | JBool(b: bool)
    | JInt(i: int)
    | JUInt(n: nat)
    | JFloat(bits: nat)
    | JStr(s: Bytes)
    | JObj
    | JArr

  datatype Seg = Field(name: Bytes) | Elem(eid: nat)

  type Path = seq<Seg>

  datatype Node = MapNode(val: JVal) | ArrNode(left: nat, val: JVal, live: bool)

  datatype Record = Record(path: Path, node: Node)

  type Ids = (Path, nat) -> nat

  // ----- values ------------------------------------------------------------

  /** The bits of a 64-bit float that is neither infinite nor not-a-number. */
  predicate Finite(bits: nat) {
    bits <= U64_MAX && bits / 0x10_0000_0000_0000 % 0x800 != 0x7FF
  }

  predicate NumberOk(n: Number) {
    match n
    case Unsigned(n) => n <= U64_MAX
    case Negative(i) => -0x8000_0000_0000_0000 <= i < 0
    case Float(bits) => Finite(bits)
  }

  predicate Ascending(ms: seq<Member>) {
    forall i, j :: 0 <= i < j < |ms| ==> Lt(ms[i].name, ms[j].name)
  }

  predicate Wf(v: Json) {
    match v
    case Num(n) => NumberOk(n)
    case Object(ms) => Ascending(ms) && forall i :: 0 <= i < |ms| ==> Wf(ms[i].value)
    case Array(items) => forall i :: 0 <= i < |items| ==> Wf(items[i])
    case _ => true
  }

  function JvalOf(v: Json): JVal {
    match v
    case Null => JNull
    case Bool(b) => JBool(b)
    case Num(Unsigned(n)) => if n <= I64_MAX then JInt(n) else JUInt(n)
    case Num(Negative(i)) => JInt(i)
    case Num(Float(bits)) => JFloat(bits)
    case Text(s) => JStr(s)
    case Object(_) => JObj
    case Array(_) => JArr
  }

  function ScalarValue(val: JVal): Json {
    match val
    case JNull => Null
    case JBool(b) => Bool(b)
    case JInt(i) => Num(if i >= 0 then Unsigned(i) else Negative(i))
    case JUInt(n) => Num(Unsigned(n))
    case JFloat(bits) => if Finite(bits) then Num(Float(bits)) else Null
    case JStr(s) => Text(s)
    case JObj => Object([])
    case JArr => Array([])
  }

  // ----- flattening --------------------------------------------------------

  function Arity(v: Json): nat {
    if v.Object? then |v.members| else if v.Array? then |v.items| else 0
  }

  function ChildOf(v: Json, i: nat): Json
    requires i < Arity(v)
  {
    if v.Object? then v.members[i].value else v.items[i]
  }

  function SegOf(path: Path, v: Json, ids: Ids, i: nat): Seg
    requires i < Arity(v)
  {
    if v.Object? then Field(v.members[i].name) else Elem(ids(path, i))
  }

  /** The record of a member, or of an array element chained to the one before it. */
  function NodeOf(path: Path, v: Json, ids: Ids, i: nat): Node
    requires i < Arity(v)
  {
    if v.Object? then MapNode(JvalOf(v.members[i].value))
    else ArrNode(if i == 0 then R.HEAD else ids(path, i - 1), JvalOf(v.items[i]), true)
  }

  function Slots(path: Path, v: Json, ids: Ids, n: nat): seq<Record>
    requires n <= Arity(v)
    decreases v, n
  {
    if n == 0 then []
    else
      var p := path + [SegOf(path, v, ids, n - 1)];
      Slots(path, v, ids, n - 1) + [Record(p, NodeOf(path, v, ids, n - 1))] + Children(p, ChildOf(v, n - 1), ids)
  }

  /** The records below a value. */
  function Children(path: Path, v: Json, ids: Ids): seq<Record>
    decreases v, Arity(v) + 1
  {
    Slots(path, v, ids, Arity(v))
  }

  function Decompose(path: Path, v: Json, ids: Ids): seq<Record> {
    [Record(path, MapNode(JvalOf(v)))] + Children(path, v, ids)
  }

  /** Flatten members in a loop; the path buffer is extended for each child and cut back after it. */
  method DecomposeChildren(path: Path, v: Json, ids: Ids, out: seq<Record>) returns (path': Path, out': seq<Record>)
    ensures path' == path && out' == out + Children(path, v, ids)
    decreases v
  {
    path', out' := path, out;
    var left := R.HEAD;
    for i := 0 to Arity(v)
      invariant path' == path && out' == out + Slots(path, v, ids, i)
      invariant left == if i == 0 || v.Object? then R.HEAD else ids(path, i - 1)
    {
      var len := |path'|;
      var seg := SegOf(path, v, ids, i);
      path' := path' + [seg];
      var node := if v.Object? then MapNode(JvalOf(ChildOf(v, i))) else ArrNode(left, JvalOf(ChildOf(v, i)), true);
      out' := out' + [Record(path', node)];
      path', out' := DecomposeChildren(path', ChildOf(v, i), ids, out');
      path' := path'[..len];
      if seg.Elem? {
        left := seg.eid;
      }
    }
  }

  method DecomposeAll(base: Path, v: Json, ids: Ids) returns (out: seq<Record>)
    ensures out == Decompose(base, v, ids)
  {
    out := [Record(base, MapNode(JvalOf(v)))];
    var path, all := DecomposeChildren(base, v, ids, out);
    out := all;
  }

  // ----- rebuilding --------------------------------------------------------

  predicate ChildOfPath(q: Path, path: Path) {
    |q| == |path| + 1 && q[..|path|] == path
  }

  /** Paths are keys, and no element has the sentinel's id. */
  ghost predicate Keyed(nodes: seq<Record>) {
    && (forall i, j :: 0 <= i < j < |nodes| ==> nodes[i].path != nodes[j].path)
    && (forall r :: r in nodes ==> (forall i :: 0 <= i < |r.path| ==> r.path[i] != Elem(R.HEAD)))
  }

  datatype Kid = Kid(seg: Seg, val: JVal)

  function NameOf(k: Kid): Bytes {
    if k.seg.Field? then k.seg.name else []
  }

  predicate NameLe(a: Kid, b: Kid) {
    Le(NameOf(a), NameOf(b))
  }

  predicate IsMember(r: Record, path: Path) {
    ChildOfPath(r.path, path) && r.path[|path|].Field? && r.node.MapNode?
  }

  predicate IsElement(r: Record, path: Path) {
    ChildOfPath(r.path, path) && r.path[|path|].Elem? && r.node.ArrNode?
  }

  /** The map records directly under a path. */
  function Fields(nodes: seq<Record>, path: Path): seq<Kid> {
    if nodes == [] then []
    else
      var front, r := Fields(nodes[..|nodes| - 1], path), nodes[|nodes| - 1];
      if IsMember(r, path) then front + [Kid(r.path[|path|], r.node.val)] else front
  }

  /** The array elements directly under a path. */
  function Elements(nodes: seq<Record>, path: Path): seq<R.Elem> {
    if nodes == [] then []
    else
      var front, r := Elements(nodes[..|nodes| - 1], path), nodes[|nodes| - 1];
      if IsElement(r, path) then front + [R.Elem(r.path[|path|].eid, r.node.left, r.node.live)] else front
  }

  /** The value of an array element. */
  function ValAt(nodes: seq<Record>, path: Path, eid: nat): JVal {
    if nodes == [] then JNull
    else
      var r := nodes[|nodes| - 1];
      if IsElement(r, path) && r.path[|path|].eid == eid then r.node.val
      else ValAt(nodes[..|nodes| - 1], path, eid)
  }

  lemma {:induction false} FieldsIff(nodes: seq<Record>, path: Path, k: Kid)
    ensures k in Fields(nodes, path) <==>
            exists r :: r in nodes && IsMember(r, path) && k == Kid(r.path[|path|], r.node.val)
  {
    if nodes != [] {
      var front, last := nodes[..|nodes| - 1], nodes[|nodes| - 1];
      FieldsIff(front, path, k);
      assert nodes == front + [last];
      if k in Fields(front, path) {
        var r :| r in front && IsMember(r, path) && k == Kid(r.path[|path|], r.node.val);
        assert r in nodes;
      }
    }
  }

  lemma {:induction false} ElementsIff(nodes: seq<Record>, path: Path, e: R.Elem)
    ensures e in Elements(nodes, path) <==>
            exists r :: r in nodes && IsElement(r, path) && e == R.Elem(r.path[|path|].eid, r.node.left, r.node.live)
  {
    if nodes != [] {
      var front, last := nodes[..|nodes| - 1], nodes[|nodes| - 1];
      ElementsIff(front, path, e);
      assert nodes == front + [last];
      if e in Elements(front, path) {
        var r :| r in front && IsElement(r, path) && e == R.Elem(r.path[|path|].eid, r.node.left, r.node.live);
        assert r in nodes;
      }
    }
  }

  lemma {:induction false} SamePath(p: Path, q: Path, path: Path)
    requires ChildOfPath(p, path) && ChildOfPath(q, path) && p[|path|] == q[|path|]
    ensures p == q
  {
    assert p == p[..|path|] + [p[|path|]] && q == q[..|path|] + [q[|path|]];
  }

  lemma {:induction false} KeyedFront(nodes: seq<Record>)
    requires Keyed(nodes) && nodes != []
    ensures Keyed(nodes[..|nodes| - 1]) && forall r :: r in nodes[..|nodes| - 1] ==> r.path != nodes[|nodes| - 1].path
  {
    var front := nodes[..|nodes| - 1];
    forall r | r in front ensures r in nodes {}
  }

  lemma {:induction false} ElementsWf(nodes: seq<Record>, path: Path)
    requires Keyed(nodes)
    ensures R.Wf(Elements(nodes, path))
  {
    if nodes != [] {
      var front, last := nodes[..|nodes| - 1], nodes[|nodes| - 1];
      KeyedFront(nodes);
      ElementsWf(front, path);
      var es := Elements(front, path);
      if IsElement(last, path) {
        assert last in nodes;
        forall i | 0 <= i < |es| ensures es[i].eid != last.path[|path|].eid {
          ElementsIff(front, path, es[i]);
          var r :| r in front && IsElement(r, path) && es[i] == R.Elem(r.path[|path|].eid, r.node.left, r.node.live);
          if r.path[|path|] == last.path[|path|] { SamePath(r.path, last.path, path); }
        }
      }
    }
  }

  lemma {:induction false} ValAtIs(nodes: seq<Record>, path: Path, r: Record)
    requires Keyed(nodes) && r in nodes && IsElement(r, path)
    ensures ValAt(nodes, path, r.path[|path|].eid) == r.node.val
  {
    var front, last := nodes[..|nodes| - 1], nodes[|nodes| - 1];
    KeyedFront(nodes);
    if IsElement(last, path) && last.path[|path|].eid == r.path[|path|].eid {
      SamePath(last.path, r.path, path);
      assert nodes == front + [last];
    } else {
      assert nodes == front + [last];
      ValAtIs(front, path, r);
    }
  }

  /** Elements in document order, without the dead. */
  function LiveKids(nodes: seq<Record>, path: Path, order: seq<R.Item>): seq<Kid> {
    if order == [] then []
    else
      var front, i := LiveKids(nodes, path, order[..|order| - 1]), order[|order| - 1];
      if i.live then front + [Kid(Elem(i.eid), ValAt(nodes, path, i.eid))] else front
  }

  /** The children of a container in the order they are rendered. */
  ghost function Kids(nodes: seq<Record>, path: Path, val: JVal): seq<Kid>
    requires Keyed(nodes)
  {
    ElementsWf(nodes, path);
    if val.JObj? then S.Sort(Fields(nodes, path), NameLe)
    else if val.JArr? then LiveKids(nodes, path, R.Order(Elements(nodes, path)))
    else []
  }

  /** Live elements in document order, and the last element dead or alive. */
  datatype ArrInfo = ArrInfo(order: seq<nat>, last: nat)

  datatype Doc = Doc(value: Json, arrays: map<Path, ArrInfo>)

  function EidsOf(kids: seq<Kid>): seq<nat> {
    if kids == [] then []
    else EidsOf(kids[..|kids| - 1]) + [if kids[|kids| - 1].seg.Elem? then kids[|kids| - 1].seg.eid else R.HEAD]
  }

  /** The last id of an order; the sentinel when there is none. */
  function LastOf(order: seq<R.Item>): nat {
    if order == [] then R.HEAD else order[|order| - 1].eid
  }

  function MembersOf(kids: seq<Kid>, docs: seq<Doc>): seq<Member>
    requires |kids| == |docs|
  {
    if kids == [] then []
    else MembersOf(kids[..|kids| - 1], docs[..|kids| - 1]) + [Member(NameOf(kids[|kids| - 1]), docs[|kids| - 1].value)]
  }

  function ItemsOf(docs: seq<Doc>): seq<Json> {
    if docs == [] then [] else ItemsOf(docs[..|docs| - 1]) + [docs[|docs| - 1].value]
  }

  function IndexOf(docs: seq<Doc>): map<Path, ArrInfo> {
    if docs == [] then map[] else IndexOf(docs[..|docs| - 1]) + docs[|docs| - 1].arrays
  }

  /** A node put together from its rendered children. */
  function Assemble(path: Path, val: JVal, kids: seq<Kid>, docs: seq<Doc>, last: nat): Doc
    requires |kids| == |docs|
  {
    if val.JObj? then Doc(Object(MembersOf(kids, docs)), IndexOf(docs))
    else if val.JArr? then Doc(Array(ItemsOf(docs)), IndexOf(docs)[path := ArrInfo(EidsOf(kids), last)])
    else Doc(ScalarValue(val), map[])
  }
}
