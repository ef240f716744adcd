/** Segments whose body follows its length. */
module Framing {
  import opened ByteStrings
  import opened Delimited
  import opened Numerals
  import opened Options

  function Framed(body: Bytes): Bytes {
    Varint(|body|) + body
  }

  /** The body behind the tag and the length at the front of a buffer. */
  function Window(buf: Bytes): (r: Option<Read<Bytes>>)
    requires buf != []
    ensures r.Some? ==> 0 < r.value.used <= |buf|
  {
    match GetVarint(buf[1..])
    case None => None
    case Some(Read(len, n)) =>
      if |buf| < 1 + n + len then None else Some(Read(buf[1 + n..1 + n + len], 1 + n + len))
  }

  lemma {:induction false} WindowReads(tag: nat, body: Bytes, rest: Bytes)
    requires |body| < TWO_64
    ensures Window([tag] + Framed(body) + rest) == Some(Read(body, |[tag] + Framed(body)|))
  {
    var v := Varint(|body|);
    var data := [tag] + Framed(body) + rest;
    assert data[1..] == v + (body + rest);
    VarintReads(|body|, body + rest);
    assert data[1 + |v|..1 + |v| + |body|] == body;
  }

  // ----- lengths beyond memory ---------------------------------------------

  /** The announced end lies beyond 64 bits, where the code's sum overflows instead of failing to decode. */
  predicate Overflows(buf: Bytes) {
    && buf != [] && GetVarint(buf[1..]).Some?
    && var head := GetVarint(buf[1..]).value; 1 + head.used + head.value >= TWO_64
  }

  /** k bytes of seven ones, then a last one. */
  function Ones(k: nat): Bytes {
    if k == 0 then [1] else [255] + Ones(k - 1)
  }

  function OnesValue(k: nat): nat {
    if k == 0 then 1 else 128 * OnesValue(k - 1) + 127
  }

  lemma {:induction false} OnesEncode(k: nat)
    ensures OnesValue(k) > 0 && Varint(OnesValue(k)) == Ones(k)
  {
    if k > 0 { OnesEncode(k - 1); }
  }

  lemma {:induction false} NineOnes()
    ensures OnesValue(9) == TWO_64 - 1
  {
    assert OnesValue(3) == 0x3F_FFFF;
    assert OnesValue(6) == 0x7FF_FFFF_FFFF;
  }

  /** A malformed segment: ten length bytes that announce the longest body there is. */
  lemma {:induction false} LengthOverflows(tag: nat)
    ensures Overflows([tag] + Ones(9))
  {
    NineOnes();
    OnesEncode(9);
    VarintReads(TWO_64 - 1, []);
    assert ([tag] + Ones(9))[1..] == Varint(TWO_64 - 1) + [];
  }

  /** Written segments overflow exactly when they fill 64 bits, so none that fits in memory does. */
  lemma {:induction false} WrittenOverflowsIff(tag: nat, body: Bytes, rest: Bytes)
    requires |body| < TWO_64
    ensures Overflows([tag] + Framed(body) + rest) <==> |[tag] + Framed(body)| >= TWO_64
  {
    var data := [tag] + Framed(body) + rest;
    assert data[1..] == Varint(|body|) + (body + rest);
    VarintReads(|body|, body + rest);
  }
}
