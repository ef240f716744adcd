/**
 * Internal keys: a partition, a tag, and for documents the length-prefixed user
 * key followed by the path of a node. Scanning from the key of a node visits
 * exactly that node and its descendants.
 */
module DocKeys {
  import opened ByteStrings
  import opened Delimited
  import opened Framing
  import opened KeyRanges
  import opened Numerals
  import JsonDoc
  import PathCodec
  import ProtoDocs
  import ProtoPaths

  /** 'j' */
  const TAG_JSON: nat := 106

  /** 'p' */
  const TAG_PROTO_FIELD: nat := 112

  /** The partition of each user key. */
  type Partition = Bytes -> nat

  function Base(pid: nat, tag: nat): Bytes {
    BigEndian(pid, 2) + [tag]
  }

  /** The internal key of a record of a document. */
  function DocKey(pid: Partition, tag: nat, userKey: Bytes, suffix: Bytes): Bytes {
    Base(pid(userKey), tag) + (Varint(|userKey|) + (userKey + suffix))
  }

  predicate UserKeyOk(userKey: Bytes) {
    |userKey| < TWO_64 && AreBytes(userKey)
  }

  // ----- keys are bytes ----------------------------------------------------

  lemma {:induction false} VarintBytes(n: nat)
    ensures AreBytes(Varint(n))
  {
    if n >= 128 { VarintBytes(n / 128); }
  }

  lemma {:induction false} BigEndianBytes(n: nat, k: nat)
    ensures AreBytes(BigEndian(n, k))
  {
    if k > 0 { BigEndianBytes(n / 256, k - 1); }
  }

  lemma {:induction false} SumBytes(s: Bytes, t: Bytes)
    requires AreBytes(s) && AreBytes(t)
    ensures AreBytes(s + t)
  {}

  lemma {:induction false} NumberBytes(tag: nat, n: nat, k: nat)
    requires tag < 256
    ensures AreBytes([tag] + BigEndian(n, k))
  {
    BigEndianBytes(n, k);
    SumBytes([tag], BigEndian(n, k));
  }

  lemma {:induction false} BaseBytes(pid: nat, tag: nat)
    requires tag < 256
    ensures AreBytes(Base(pid, tag)) && |Base(pid, tag)| == 3
  {
    BigEndianBytes(pid, 2);
    SumBytes(BigEndian(pid, 2), [tag]);
  }

  lemma {:induction false} DocKeyBytes(pid: Partition, tag: nat, userKey: Bytes, suffix: Bytes)
    requires tag < 256 && AreBytes(userKey) && AreBytes(suffix)
    ensures AreBytes(DocKey(pid, tag, userKey, suffix))
  {
    BaseBytes(pid(userKey), tag);
    VarintBytes(|userKey|);
    SumBytes(userKey, suffix);
    SumBytes(Varint(|userKey|), userKey + suffix);
    SumBytes(Base(pid(userKey), tag), Varint(|userKey|) + (userKey + suffix));
  }

  lemma {:induction false} FramedBytes(tag: nat, body: Bytes)
    requires tag < 256 && AreBytes(body)
    ensures AreBytes([tag] + Framed(body))
  {
    VarintBytes(|body|);
    SumBytes(Varint(|body|), body);
    SumBytes([tag], Framed(body));
  }

  lemma {:induction false} JoinedBytes<T>(encode: T -> Bytes, p: seq<T>)
    requires forall i :: 0 <= i < |p| ==> AreBytes(encode(p[i]))
    ensures AreBytes(Joined(encode, p))
    decreases |p|
  {
    if p != [] {
      JoinedBytes(encode, p[1..]);
      SumBytes(encode(p[0]), Joined(encode, p[1..]));
    }
  }

  // ----- prefixes ----------------------------------------------------------

  /** Behind equal-length fronts, prefixes split. */
  lemma {:induction false} PrefixSplits(a: Bytes, x: Bytes, b: Bytes, y: Bytes)
    requires |a| == |b|
    ensures a + x <= b + y <==> a == b && x <= y
  {
    if a + x <= b + y {
      assert forall i :: 0 <= i < |a| ==> (a + x)[i] == a[i] && (b + y)[i] == b[i];
      assert forall i :: 0 <= i < |x| ==> (a + x)[|a| + i] == x[i] && (b + y)[|a| + i] == y[i];
    }
  }

  /** A number in front must be the same number. */
  lemma {:induction false} VarintPrefix(m: nat, x: Bytes, n: nat, y: Bytes)
    requires m < TWO_64 && n < TWO_64
    ensures Varint(m) + x <= Varint(n) + y <==> m == n && x <= y
  {
    VarintDelimited(m);
    VarintDelimited(n);
    FirstUnique(Varint, GetVarint, m, n, x, y);
  }

  /** One key starts with another exactly when it belongs to the same document and its suffix does. */
  lemma {:induction false} DocKeyPrefix(pid: Partition, tag: nat, u: Bytes, x: Bytes, v: Bytes, y: Bytes)
    requires tag < 256 && |u| < TWO_64 && |v| < TWO_64
    ensures DocKey(pid, tag, u, x) <= DocKey(pid, tag, v, y) <==> u == v && x <= y
  {
    BaseBytes(pid(u), tag);
    BaseBytes(pid(v), tag);
    PrefixSplits(Base(pid(u), tag), Varint(|u|) + (u + x), Base(pid(v), tag), Varint(|v|) + (v + y));
    VarintPrefix(|u|, u + x, |v|, v + y);
    if |u| == |v| { PrefixSplits(u, x, v, y); }
  }

  lemma {:induction false} DocRange(pid: Partition, tag: nat, u: Bytes, x: Bytes, v: Bytes, y: Bytes)
    requires tag < 256 && UserKeyOk(u) && AreBytes(x) && UserKeyOk(v) && AreBytes(y)
    ensures InRange(DocKey(pid, tag, u, x), DocKey(pid, tag, v, y)) <==> u == v && x <= y
  {
    DocKeyBytes(pid, tag, u, x);
    DocKeyBytes(pid, tag, v, y);
    RangeIsPrefix(DocKey(pid, tag, u, x), DocKey(pid, tag, v, y));
    DocKeyPrefix(pid, tag, u, x, v, y);
  }

  /** Keys of any other kind never lie in the range of a record of a document. */
  lemma {:induction false} OtherKindsOutside(
      pid: Partition, tag: nat, u: Bytes, x: Bytes, other: nat, kind: nat, rest: Bytes)
    requires tag < 256 && UserKeyOk(u) && AreBytes(x) && kind != tag && kind < 256 && AreBytes(rest)
    ensures !InRange(DocKey(pid, tag, u, x), Base(other, kind) + rest)
  {
    DocKeyBytes(pid, tag, u, x);
    BaseBytes(pid(u), tag);
    BaseBytes(other, kind);
    SumBytes(Base(other, kind), rest);
    RangeIsPrefix(DocKey(pid, tag, u, x), Base(other, kind) + rest);
    PrefixSplits(Base(pid(u), tag), Varint(|u|) + (u + x), Base(other, kind), rest);
    assert Base(pid(u), tag)[2] == tag && Base(other, kind)[2] == kind;
  }

  // ----- JSON documents ----------------------------------------------------

  predicate NodeOk(path: JsonDoc.Path) {
    PathCodec.PathOk(path) && forall i :: 0 <= i < |path| ==> (path[i].Field? ==> AreBytes(path[i].name))
  }

  function NodeKey(pid: Partition, userKey: Bytes, path: JsonDoc.Path): Bytes {
    DocKey(pid, TAG_JSON, userKey, PathCodec.EncodePath(path))
  }

  lemma {:induction false} NodePathBytes(path: JsonDoc.Path)
    requires NodeOk(path)
    ensures AreBytes(PathCodec.EncodePath(path))
  {
    forall i | 0 <= i < |path| ensures AreBytes(PathCodec.EncodeSeg(path[i])) {
      match path[i]
      case Field(name) => FramedBytes(PathCodec.SEG_FIELD, name);
      case Elem(eid) => NumberBytes(PathCodec.SEG_ELEM, eid, 10);
    }
    JoinedBytes(PathCodec.EncodeSeg, path);
  }

  /**
   * For every two JSON documents and paths, the node keys in the range of a
   * prefix scan are exactly those of that node and its descendants.
   */
  lemma {:induction false} SubtreeIsRange(pid: Partition, u: Bytes, p: JsonDoc.Path, v: Bytes, q: JsonDoc.Path)
    requires UserKeyOk(u) && NodeOk(p) && UserKeyOk(v) && NodeOk(q)
    ensures InRange(NodeKey(pid, u, p), NodeKey(pid, v, q)) <==> u == v && p <= q
  {
    NodePathBytes(p);
    NodePathBytes(q);
    DocRange(pid, TAG_JSON, u, PathCodec.EncodePath(p), v, PathCodec.EncodePath(q));
    PathCodec.PathPrefix(p, q);
  }

  // ----- protobuf documents ------------------------------------------------

  predicate FieldOk(path: ProtoDocs.Path) {
    && ProtoPaths.PathOk(path)
    && forall i :: 0 <= i < |path| ==> (path[i].MapKey? && path[i].k.Str? ==> AreBytes(path[i].k.s))
  }

  function FieldKey(pid: Partition, userKey: Bytes, path: ProtoDocs.Path): Bytes {
    DocKey(pid, TAG_PROTO_FIELD, userKey, ProtoPaths.EncodePath(path))
  }

  lemma {:induction false} BodyBytes(k: ProtoDocs.Key)
    requires k.Str? ==> AreBytes(k.s)
    ensures AreBytes(ProtoPaths.KeyBody(k))
  {
    match k
    case Bool(_) =>
    case I32(i) => NumberBytes(ProtoPaths.KIND_I32, ProtoPaths.Unsigned(i, 4), 4);
    case I64(i) => NumberBytes(ProtoPaths.KIND_I64, ProtoPaths.Unsigned(i, 8), 8);
    case U32(u) => NumberBytes(ProtoPaths.KIND_U32, u, 4);
    case U64(u) => NumberBytes(ProtoPaths.KIND_U64, u, 8);
    case Str(s) => SumBytes([ProtoPaths.KIND_STR], s);
  }

  lemma {:induction false} FieldPathBytes(path: ProtoDocs.Path)
    requires FieldOk(path)
    ensures AreBytes(ProtoPaths.EncodePath(path))
  {
    forall i | 0 <= i < |path| ensures AreBytes(ProtoPaths.EncodeSeg(path[i])) {
      match path[i]
      case Field(n) =>
        VarintBytes(n);
        FramedBytes(ProtoPaths.SEG_FIELD, Varint(n));
      case Elem(eid) => NumberBytes(ProtoPaths.SEG_ELEM, eid, 10);
      case MapKey(k) =>
        BodyBytes(k);
        FramedBytes(ProtoPaths.SEG_MAPKEY, ProtoPaths.KeyBody(k));
    }
    JoinedBytes(ProtoPaths.EncodeSeg, path);
  }

  /** The same for protobuf documents: fields, map entries and list elements below a record are its range. */
  lemma {:induction false} FieldsAreRange(pid: Partition, u: Bytes, p: ProtoDocs.Path, v: Bytes, q: ProtoDocs.Path)
    requires UserKeyOk(u) && FieldOk(p) && UserKeyOk(v) && FieldOk(q)
    ensures InRange(FieldKey(pid, u, p), FieldKey(pid, v, q)) <==> u == v && p <= q
  {
    FieldPathBytes(p);
    FieldPathBytes(q);
    DocRange(pid, TAG_PROTO_FIELD, u, ProtoPaths.EncodePath(p), v, ProtoPaths.EncodePath(q));
    ProtoPaths.PathPrefix(p, q);
  }
}
