/** Byte encodings of protobuf paths: fields by number, list elements and map keys. */
module ProtoPaths {
  import opened ByteStrings
  import opened Delimited
  import opened Framing
  import opened Numerals
  import opened Options
  import opened ProtoDocs
  import Lex
  import PathCodec

  const SEG_FIELD: nat := 1
  const SEG_ELEM: nat := 2
  const SEG_MAPKEY: nat := 3

  const KIND_BOOL: nat := 1
  const KIND_I32: nat := 2
  const KIND_I64: nat := 3
  const KIND_U32: nat := 4
  const KIND_U64: nat := 5
  const KIND_STR: nat := 6

  const TWO_32: nat := 0x1_0000_0000

  // ----- map keys ----------------------------------------------------------

  /** Two's complement in k bytes. */
  function Unsigned(i: int, k: nat): nat {
    i % Pow256(k)
  }

  function Signed(n: nat, k: nat): int {
    if 2 * n < Pow256(k) then n else n - Pow256(k)
  }

  predicate Fits(i: int, k: nat) {
    0 <= 2 * i + Pow256(k) < 2 * Pow256(k)
  }

  lemma {:induction false} Rest(i: int, p: nat)
    requires 0 < p && 0 <= i + p < 2 * p
    ensures i % p == if i >= 0 then i else i + p
  {
    var q := i / p;
    assert i == p * q + i % p;
    assert (q >= 1 ==> p * q >= p) && (q <= -2 ==> p * q <= p * -2);
  }

  lemma {:induction false} Complement(i: int, k: nat)
    requires Fits(i, k)
    ensures Unsigned(i, k) == (if i >= 0 then i else i + Pow256(k)) < Pow256(k)
  {
    Rest(i, Pow256(k));
  }

  lemma {:induction false} Widths()
    ensures Pow256(4) == TWO_32 && Pow256(8) == TWO_64
  {
    assert Pow256(2) == 0x1_0000;
    assert Pow256(4) == TWO_32;
    assert Pow256(6) == 0x1_0000_0000_0000;
  }

  /** Integers fit their width and strings are short enough for their length. */
  predicate KeyOk(k: Key) {
    match k
    case Bool(_) => true
    case I32(i) => Fits(i, 4)
    case I64(i) => Fits(i, 8)
    case U32(u) => u < TWO_32
    case U64(u) => u < TWO_64
    case Str(s) => |s| + 1 < TWO_64
  }

  function KeyBody(k: Key): (r: Bytes)
    ensures r != []
  {
    match k
    case Bool(b) => [KIND_BOOL] + [if b then 1 else 0]
    case I32(i) => [KIND_I32] + BigEndian(Unsigned(i, 4), 4)
    case I64(i) => [KIND_I64] + BigEndian(Unsigned(i, 8), 8)
    case U32(u) => [KIND_U32] + BigEndian(u, 4)
    case U64(u) => [KIND_U64] + BigEndian(u, 8)
    case Str(s) => [KIND_STR] + s
  }

  function ReadKey(body: Bytes): Option<Key> {
    if body == [] then None
    else
      var rest := body[1..];
      if body[0] == KIND_BOOL && rest == [0] then Some(Bool(false))
      else if body[0] == KIND_BOOL && rest == [1] then Some(Bool(true))
      else if body[0] == KIND_I32 && |rest| == 4 then Some(I32(Signed(FromBigEndian(rest), 4)))
      else if body[0] == KIND_I64 && |rest| == 8 then Some(I64(Signed(FromBigEndian(rest), 8)))
      else if body[0] == KIND_U32 && |rest| == 4 then Some(U32(FromBigEndian(rest)))
      else if body[0] == KIND_U64 && |rest| == 8 then Some(U64(FromBigEndian(rest)))
      else if body[0] == KIND_STR then Some(Str(rest))
      else None
  }

  lemma {:induction false} SignedReads(i: int, k: nat)
    requires Fits(i, k)
    ensures Signed(FromBigEndian(BigEndian(Unsigned(i, k), k)), k) == i
  {
    Complement(i, k);
    BigEndianReads(Unsigned(i, k), k);
  }

  /** Every map key is read back from its body. */
  lemma {:induction false} KeyReads(k: Key)
    requires KeyOk(k)
    ensures ReadKey(KeyBody(k)) == Some(k)
  {
    Widths();
    match k
    case Bool(b) => assert KeyBody(k)[1..] == [if b then 1 else 0];
    case I32(i) =>
      assert KeyBody(k)[1..] == BigEndian(Unsigned(i, 4), 4);
      SignedReads(i, 4);
    case I64(i) =>
      assert KeyBody(k)[1..] == BigEndian(Unsigned(i, 8), 8);
      SignedReads(i, 8);
    case U32(u) =>
      assert KeyBody(k)[1..] == BigEndian(u, 4);
      BigEndianReads(u, 4);
    case U64(u) =>
      assert KeyBody(k)[1..] == BigEndian(u, 8);
      BigEndianReads(u, 8);
    case Str(s) => assert KeyBody(k)[1..] == s;
  }

  // ----- segments ----------------------------------------------------------

  predicate SegOk(s: Seg) {
    match s
    case Field(n) => n < TWO_32
    case Elem(eid) => eid < 0x1_0000 * TWO_64
    case MapKey(k) => KeyOk(k)
  }

  function EncodeSeg(s: Seg): (r: Bytes)
    ensures r != []
  {
    match s
    case Field(n) => [SEG_FIELD] + Framed(Varint(n))
    case Elem(eid) => [SEG_ELEM] + BigEndian(eid, 10)
    case MapKey(k) => [SEG_MAPKEY] + Framed(KeyBody(k))
  }

  /** A field number fills its window. */
  function ReadNumber(body: Bytes): Option<nat> {
    match GetVarint(body)
    case None => None
    case Some(Read(n, used)) => if used != |body| || n >= TWO_32 then None else Some(n)
  }

  function DecodeSeg(buf: Bytes): (r: Option<Read<Seg>>)
    ensures r.Some? ==> 0 < r.value.used <= |buf|
  {
    if buf == [] then None
    else if buf[0] == SEG_FIELD then
      match Window(buf)
      case None => None
      case Some(Read(body, used)) =>
        if ReadNumber(body).None? then None else Some(Read(Field(ReadNumber(body).value), used))
    else if buf[0] == SEG_ELEM then
      if |buf| < 11 then None else Some(Read(Elem(FromBigEndian(buf[1..11])), 11))
    else if buf[0] == SEG_MAPKEY then
      match Window(buf)
      case None => None
      case Some(Read(body, used)) =>
        if ReadKey(body).None? then None else Some(Read(MapKey(ReadKey(body).value), used))
    else None
  }

  lemma {:induction false} FieldReads(n: nat, rest: Bytes)
    requires n < TWO_32
    ensures DecodeSeg(EncodeSeg(Field(n)) + rest) == Some(Read(Field(n), |EncodeSeg(Field(n))|))
  {
    assert (EncodeSeg(Field(n)) + rest)[0] == SEG_FIELD;
    VarintShort(n);
    WindowReads(SEG_FIELD, Varint(n), rest);
    VarintReads(n, []);
    assert Varint(n) + [] == Varint(n);
  }

  lemma {:induction false} ElemReads(eid: nat, rest: Bytes)
    requires eid < 0x1_0000 * TWO_64
    ensures DecodeSeg(EncodeSeg(Elem(eid)) + rest) == Some(Read(Elem(eid), |EncodeSeg(Elem(eid))|))
  {
    var data := EncodeSeg(Elem(eid)) + rest;
    assert data[0] == SEG_ELEM && data[1..11] == BigEndian(eid, 10);
    PathCodec.TenBytes();
    BigEndianReads(eid, 10);
  }

  lemma {:induction false} KeySegReads(k: Key, rest: Bytes)
    requires KeyOk(k)
    ensures DecodeSeg(EncodeSeg(MapKey(k)) + rest) == Some(Read(MapKey(k), |EncodeSeg(MapKey(k))|))
  {
    assert (EncodeSeg(MapKey(k)) + rest)[0] == SEG_MAPKEY;
    WindowReads(SEG_MAPKEY, KeyBody(k), rest);
    KeyReads(k);
  }

  /** A segment is read back whatever follows it. */
  lemma {:induction false} SegReads(s: Seg, rest: Bytes)
    requires SegOk(s)
    ensures DecodeSeg(EncodeSeg(s) + rest) == Some(Read(s, |EncodeSeg(s)|))
  {
    match s
    case Field(n) => FieldReads(n, rest);
    case Elem(eid) => ElemReads(eid, rest);
    case MapKey(k) => KeySegReads(k, rest);
  }

  // ----- paths -------------------------------------------------------------

  predicate PathOk(p: Path) {
    forall i :: 0 <= i < |p| ==> SegOk(p[i])
  }

  function EncodePath(p: Path): Bytes {
    Joined(EncodeSeg, p)
  }

  lemma {:induction false} SegsDelimited(p: Path)
    requires PathOk(p)
    ensures AllDelimited(EncodeSeg, DecodeSeg, p)
  {
    forall i | 0 <= i < |p| ensures Delimits(EncodeSeg, DecodeSeg, p[i]) {
      forall rest: Bytes ensures DecodeSeg(EncodeSeg(p[i]) + rest) == Some(Read(p[i], |EncodeSeg(p[i])|)) {
        SegReads(p[i], rest);
      }
    }
  }

  /** Every path is decoded back from its bytes. */
  lemma {:induction false} PathReads(p: Path)
    requires PathOk(p)
    ensures DecodeAll(DecodeSeg, EncodePath(p)) == Some(p)
  {
    SegsDelimited(p);
    JoinedReads(EncodeSeg, DecodeSeg, p);
  }

  /** Splitting the bytes of a path splits the path before its last segment. */
  lemma {:induction false} SplitsPath(p: Path, s: Seg)
    requires PathOk(p) && SegOk(s)
    ensures SplitAll(DecodeSeg, EncodePath(p + [s])) == Some(Split(EncodePath(p), s))
  {
    SegsDelimited(p + [s]);
    JoinedSplits(EncodeSeg, DecodeSeg, p, s);
  }

  /** The bytes of one path begin with those of another exactly when the path does. */
  lemma {:induction false} PathPrefix(p: Path, q: Path)
    requires PathOk(p) && PathOk(q)
    ensures EncodePath(p) <= EncodePath(q) <==> p <= q
  {
    SegsDelimited(p);
    SegsDelimited(q);
    JoinedPrefix(EncodeSeg, DecodeSeg, p, q);
  }

  // ----- the order of map keys ---------------------------------------------

  lemma {:induction false} LastByte(s: Bytes, t: Bytes, b: nat, c: nat)
    requires |s| == |t|
    ensures Lex.Le(s + [b], t + [c]) <==> if s == t then b <= c else Lex.Le(s, t)
  {
    if s != [] {
      assert (s + [b])[1..] == s[1..] + [b] && (t + [c])[1..] == t[1..] + [c];
      LastByte(s[1..], t[1..], b, c);
      assert s == [s[0]] + s[1..] && t == [t[0]] + t[1..];
    } else {
      assert s + [b] == [b] && t + [c] == [c];
    }
  }

  lemma {:induction false} BigEndianUnique(m: nat, n: nat, k: nat)
    requires m < Pow256(k) && n < Pow256(k)
    ensures BigEndian(m, k) == BigEndian(n, k) <==> m == n
  {
    BigEndianReads(m, k);
    BigEndianReads(n, k);
  }

  /** Fixed-width numbers compare as their bytes do. */
  lemma {:induction false} BigEndianOrder(m: nat, n: nat, k: nat)
    requires m < Pow256(k) && n < Pow256(k)
    ensures Lex.Le(BigEndian(m, k), BigEndian(n, k)) <==> m <= n
    decreases k
  {
    if k > 0 {
      BigEndianOrder(m / 256, n / 256, k - 1);
      BigEndianUnique(m / 256, n / 256, k - 1);
      LastByte(BigEndian(m / 256, k - 1), BigEndian(n / 256, k - 1), m % 256, n % 256);
    }
  }

  lemma {:induction false} Behind(kind: nat, s: Bytes, t: Bytes)
    ensures Lex.Le([kind] + s, [kind] + t) <==> Lex.Le(s, t)
  {
    assert ([kind] + s)[1..] == s && ([kind] + t)[1..] == t;
  }

  /** Unsigned keys are ordered as their bytes. */
  lemma {:induction false} UnsignedOrder(m: nat, n: nat)
    requires m < TWO_64 && n < TWO_64
    ensures Lex.Le(KeyBody(U64(m)), KeyBody(U64(n))) <==> m <= n
    ensures m < TWO_32 && n < TWO_32 ==> (Lex.Le(KeyBody(U32(m)), KeyBody(U32(n))) <==> m <= n)
  {
    Widths();
    Behind(KIND_U64, BigEndian(m, 8), BigEndian(n, 8));
    BigEndianOrder(m, n, 8);
    if m < TWO_32 && n < TWO_32 {
      Behind(KIND_U32, BigEndian(m, 4), BigEndian(n, 4));
      BigEndianOrder(m, n, 4);
    }
  }

  lemma {:induction false} SignedOrder(i: int, j: int, k: nat)
    requires Fits(i, k) && Fits(j, k)
    ensures (Lex.Le(BigEndian(Unsigned(i, k), k), BigEndian(Unsigned(j, k), k)) <==> i <= j) <==> (i < 0 <==> j < 0)
  {
    Complement(i, k);
    Complement(j, k);
    BigEndianOrder(Unsigned(i, k), Unsigned(j, k), k);
  }

  /** Signed keys are ordered as their bytes exactly when their signs agree: negative ones come last. */
  lemma {:induction false} SignedOrderIff(i: int, j: int)
    requires Fits(i, 8) && Fits(j, 8)
    ensures (Lex.Le(KeyBody(I64(i)), KeyBody(I64(j))) <==> i <= j) <==> (i < 0 <==> j < 0)
    ensures Fits(i, 4) && Fits(j, 4) ==>
      ((Lex.Le(KeyBody(I32(i)), KeyBody(I32(j))) <==> i <= j) <==> (i < 0 <==> j < 0))
  {
    Behind(KIND_I64, BigEndian(Unsigned(i, 8), 8), BigEndian(Unsigned(j, 8), 8));
    SignedOrder(i, j, 8);
    if Fits(i, 4) && Fits(j, 4) {
      Behind(KIND_I32, BigEndian(Unsigned(i, 4), 4), BigEndian(Unsigned(j, 4), 4));
      SignedOrder(i, j, 4);
    }
  }
}
