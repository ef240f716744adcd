/** Byte encodings of document paths, segment by segment. */
module PathCodec {
  import opened ByteStrings
  import opened Delimited
  import opened Framing
  import opened JsonDoc
  import opened Numerals
  import opened Options

  const SEG_FIELD: nat := 1
  const SEG_ELEM: nat := 2

  // ----- segments ----------------------------------------------------------

  /** Names are shorter than 2^64 bytes and element ids fit ten bytes. */
  predicate SegOk(s: Seg) {
    match s
    case Field(name) => |name| < TWO_64
    case Elem(eid) => eid < 0x1_0000 * TWO_64
  }

  function EncodeSeg(s: Seg): (r: Bytes)
    ensures r != []
  {
    match s
    case Field(name) => [SEG_FIELD] + Framed(name)
    case Elem(eid) => [SEG_ELEM] + BigEndian(eid, 10)
  }

  function DecodeSeg(buf: Bytes): (r: Option<Read<Seg>>)
    ensures r.Some? ==> 0 < r.value.used <= |buf|
  {
    if buf == [] then None
    else if buf[0] == SEG_FIELD then
      match Window(buf)
      case None => None
      case Some(Read(name, used)) => Some(Read(Field(name), used))
    else if buf[0] == SEG_ELEM then
      if |buf| < 11 then None else Some(Read(Elem(FromBigEndian(buf[1..11])), 11))
    else None
  }

  lemma {:induction false} FieldReads(name: Bytes, rest: Bytes)
    requires |name| < TWO_64
    ensures DecodeSeg(EncodeSeg(Field(name)) + rest) == Some(Read(Field(name), |EncodeSeg(Field(name))|))
  {
    assert (EncodeSeg(Field(name)) + rest)[0] == SEG_FIELD;
    WindowReads(SEG_FIELD, name, rest);
  }

  lemma {:induction false} TenBytes()
    ensures Pow256(10) == 0x1_0000 * TWO_64
  {
    assert Pow256(2) == 0x1_0000;
    assert Pow256(4) == 0x1_0000_0000;
    assert Pow256(6) == 0x1_0000_0000_0000;
    assert Pow256(8) == TWO_64;
  }

  lemma {:induction false} ElemReads(eid: nat, rest: Bytes)
    requires eid < 0x1_0000 * TWO_64
    ensures DecodeSeg(EncodeSeg(Elem(eid)) + rest) == Some(Read(Elem(eid), 11))
  {
    var data := [SEG_ELEM] + BigEndian(eid, 10) + rest;
    assert data[1..11] == BigEndian(eid, 10);
    TenBytes();
    BigEndianReads(eid, 10);
  }

  /** A segment is read back whatever follows it. */
  lemma {:induction false} SegReads(s: Seg, rest: Bytes)
    requires SegOk(s)
    ensures DecodeSeg(EncodeSeg(s) + rest) == Some(Read(s, |EncodeSeg(s)|))
  {
    match s
    case Field(name) => FieldReads(name, rest);
    case Elem(eid) => ElemReads(eid, rest);
  }

  // ----- paths -------------------------------------------------------------

  predicate PathOk(p: Path) {
    forall i :: 0 <= i < |p| ==> SegOk(p[i])
  }

  function EncodePath(p: Path): Bytes {
    Joined(EncodeSeg, p)
  }

  function DecodePath(buf: Bytes): Option<Path> {
    DecodeAll(DecodeSeg, buf)
  }

  function SplitLast(buf: Bytes): Option<Split<Seg>> {
    SplitAll(DecodeSeg, buf)
  }

  lemma {:induction false} SegsDelimited(p: Path)
    requires PathOk(p)
    ensures AllDelimited(EncodeSeg, DecodeSeg, p)
  {
    forall i | 0 <= i < |p| ensures Delimits(EncodeSeg, DecodeSeg, p[i]) {
      forall rest: Bytes ensures DecodeSeg(EncodeSeg(p[i]) + rest) == Some(Read(p[i], |EncodeSeg(p[i])|)) {
        SegReads(p[i], rest);
      }
    }
  }

  /** Every path is decoded back from its bytes. */
  lemma {:induction false} PathReads(p: Path)
    requires PathOk(p)
    ensures DecodePath(EncodePath(p)) == Some(p)
  {
    SegsDelimited(p);
    JoinedReads(EncodeSeg, DecodeSeg, p);
  }

  /** Splitting the bytes of a path splits the path before its last segment. */
  lemma {:induction false} SplitsPath(p: Path, s: Seg)
    requires PathOk(p) && SegOk(s)
    ensures SplitLast(EncodePath(p + [s])) == Some(Split(EncodePath(p), s))
  {
    SegsDelimited(p + [s]);
    JoinedSplits(EncodeSeg, DecodeSeg, p, s);
  }

  /** The bytes of one path begin with those of another exactly when the path does. */
  lemma {:induction false} PathPrefix(p: Path, q: Path)
    requires PathOk(p) && PathOk(q)
    ensures EncodePath(p) <= EncodePath(q) <==> p <= q
  {
    SegsDelimited(p);
    SegsDelimited(q);
    JoinedPrefix(EncodeSeg, DecodeSeg, p, q);
  }
}
