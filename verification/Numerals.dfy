/** Byte encodings of numbers: variable-length ones, and fixed-width ones with the highest byte first. */
module Numerals {
  import opened ByteStrings
  import opened Delimited
  import opened Options

  const TWO_64: nat := 0x1_0000_0000_0000_0000
  const MAX_VARINT: nat := 10

  // ----- variable-length numbers -------------------------------------------

  /** Seven bits per byte, lowest first; the top bit marks that more follow. */
  function Varint(n: nat): (r: Bytes)
    ensures r != []
  {
    if n < 128 then [n] else [128 + n % 128] + Varint(n / 128)
  }

  method PutVarint(out: Bytes, n: nat) returns (r: Bytes)
    ensures r == out + Varint(n)
  {
    r := out;
    var v := n;
    while v >= 128
      invariant r + Varint(v) == out + Varint(n)
    {
      assert r + ([128 + v % 128] + Varint(v / 128)) == (r + [128 + v % 128]) + Varint(v / 128);
      r := r + [128 + v % 128];
      v := v / 128;
    }
    r := r + [v];
  }

  /** The number at the front of a buffer, within a limit of bytes. */
  function Front(buf: Bytes, limit: nat): (r: Option<Read<nat>>)
    ensures r.Some? ==> 0 < r.value.used <= |buf|
    decreases limit
  {
    if buf == [] || limit == 0 then None
    else if buf[0] < 128 then Some(Read(buf[0], 1))
    else
      match Front(buf[1..], limit - 1)
      case None => None
      case Some(Read(v, n)) => Some(Read(buf[0] % 128 + 128 * v, n + 1))
  }

  /** At most ten bytes, kept to 64 bits. */
  function GetVarint(buf: Bytes): (r: Option<Read<nat>>)
    ensures r.Some? ==> 0 < r.value.used <= |buf|
  {
    match Front(buf, MAX_VARINT)
    case None => None
    case Some(Read(v, n)) => Some(Read(v % TWO_64, n))
  }

  /** What the loop makes of the bytes from i on, with `acc` read so far. */
  function Continued(acc: nat, scale: nat, i: nat, rest: Option<Read<nat>>): Option<Read<nat>> {
    match rest
    case None => None
    case Some(Read(v, n)) => Some(Read(acc + scale * v, i + n))
  }

  lemma {:induction false} ScaleStep(acc: nat, scale: nat, b: nat, v: nat)
    ensures acc + scale * (b + 128 * v) == (acc + scale * b) + (scale * 128) * v
  {
    calc {
      scale * (b + 128 * v);
      scale * b + scale * (128 * v);
      scale * b + (scale * 128) * v;
    }
  }

  lemma {:induction false} FrontStep(buf: Bytes, i: nat, limit: nat, acc: nat, scale: nat)
    requires i < |buf| && limit > 0 && buf[i] >= 128
    ensures Continued(acc, scale, i, Front(buf[i..], limit)) ==
            Continued(acc + scale * (buf[i] % 128), scale * 128, i + 1, Front(buf[i + 1..], limit - 1))
  {
    assert buf[i..][1..] == buf[i + 1..];
    var rest := Front(buf[i + 1..], limit - 1);
    if rest.Some? { ScaleStep(acc, scale, buf[i] % 128, rest.value.value); }
  }

  lemma {:induction false} FrontEnd(buf: Bytes, i: nat, limit: nat, acc: nat, scale: nat)
    requires i < |buf|
    ensures limit == 0 ==> Continued(acc, scale, i, Front(buf[i..], limit)) == None
    ensures limit > 0 && buf[i] < 128 ==>
              Continued(acc, scale, i, Front(buf[i..], limit)) == Some(Read(acc + scale * buf[i], i + 1))
  {}

  /** The loop has read i bytes that all asked for more. */
  predicate Reading(buf: Bytes, i: nat, acc: nat, scale: nat) {
    i <= |buf| && i <= MAX_VARINT && Front(buf, MAX_VARINT) == Continued(acc, scale, i, Front(buf[i..], MAX_VARINT - i))
  }

  lemma {:induction false} ReadOn(buf: Bytes, i: nat, acc: nat, scale: nat)
    requires Reading(buf, i, acc, scale) && i < |buf| && i < MAX_VARINT && buf[i] >= 128
    ensures Reading(buf, i + 1, acc + scale * (buf[i] % 128), scale * 128)
  {
    FrontStep(buf, i, MAX_VARINT - i, acc, scale);
  }

  lemma {:induction false} ReadEnd(buf: Bytes, i: nat, acc: nat, scale: nat)
    requires Reading(buf, i, acc, scale)
    ensures i == MAX_VARINT || i == |buf| ==> GetVarint(buf) == None
    ensures i < MAX_VARINT && i < |buf| && buf[i] < 128 ==>
      GetVarint(buf) == Some(Read((acc + scale * buf[i]) % TWO_64, i + 1))
  {
    if i < |buf| { FrontEnd(buf, i, MAX_VARINT - i, acc, scale); }
  }

  method ReadVarint(buf: Bytes) returns (r: Option<Read<nat>>)
    ensures r == GetVarint(buf)
  {
    var acc: nat, scale: nat := 0, 1;
    for i := 0 to |buf|
      invariant Reading(buf, i, acc, scale)
    {
      ReadEnd(buf, i, acc, scale);
      if i == MAX_VARINT {
        return None;
      }
      if buf[i] < 128 {
        return Some(Read((acc + scale * buf[i]) % TWO_64, i + 1));
      }
      ReadOn(buf, i, acc, scale);
      acc, scale := acc + scale * (buf[i] % 128), scale * 128;
    }
    ReadEnd(buf, |buf|, acc, scale);
    r := None;
  }

  function Pow128(k: nat): nat {
    if k == 0 then 1 else 128 * Pow128(k - 1)
  }

  lemma {:induction false} VarintLength(n: nat, k: nat)
    requires k > 0 && n < Pow128(k)
    ensures |Varint(n)| <= k
    decreases k
  {
    if n >= 128 { VarintLength(n / 128, k - 1); }
  }

  lemma {:induction false} FrontOfVarint(n: nat, rest: Bytes, limit: nat)
    requires |Varint(n)| <= limit
    ensures Front(Varint(n) + rest, limit) == Some(Read(n, |Varint(n)|))
    decreases limit
  {
    var data := Varint(n) + rest;
    if n < 128 {
      assert data[0] == n;
    } else {
      assert data[0] == 128 + n % 128 && data[1..] == Varint(n / 128) + rest;
      FrontOfVarint(n / 128, rest, limit - 1);
    }
  }

  lemma {:induction false} VarintShort(n: nat)
    requires n < TWO_64
    ensures |Varint(n)| <= MAX_VARINT
  {
    TenSevens();
    VarintLength(n, MAX_VARINT);
  }

  lemma {:induction false} Kept(buf: Bytes, n: nat, used: nat)
    requires n < TWO_64 && Front(buf, MAX_VARINT) == Some(Read(n, used))
    ensures GetVarint(buf) == Some(Read(n, used))
  {}

  /** A 64-bit number is read back whatever follows it. */
  lemma {:induction false} VarintReads(n: nat, rest: Bytes)
    requires n < TWO_64
    ensures GetVarint(Varint(n) + rest) == Some(Read(n, |Varint(n)|))
  {
    VarintShort(n);
    FrontOfVarint(n, rest, MAX_VARINT);
    Kept(Varint(n) + rest, n, |Varint(n)|);
  }

  lemma {:induction false} VarintDelimited(n: nat)
    requires n < TWO_64
    ensures Delimits(Varint, GetVarint, n)
  {
    forall rest: Bytes ensures GetVarint(Varint(n) + rest) == Some(Read(n, |Varint(n)|)) {
      VarintReads(n, rest);
    }
  }

  lemma {:induction false} TenSevens()
    ensures Pow128(MAX_VARINT) >= TWO_64
  {
    assert Pow128(2) == 0x4000;
    assert Pow128(4) == 0x1000_0000;
    assert Pow128(6) == 0x400_0000_0000;
    assert Pow128(8) == 0x100_0000_0000_0000;
    assert Pow128(10) == 0x40_0000_0000_0000_0000;
  }

  // ----- fixed-width numbers -----------------------------------------------

  /** The last k bytes of n, highest first. */
  function BigEndian(n: nat, k: nat): (r: Bytes)
    ensures |r| == k
  {
    if k == 0 then [] else BigEndian(n / 256, k - 1) + [n % 256]
  }

  function FromBigEndian(s: Bytes): nat {
    if s == [] then 0 else FromBigEndian(s[..|s| - 1]) * 256 + s[|s| - 1]
  }

  function Pow256(k: nat): (r: nat)
    ensures r > 0
  {
    if k == 0 then 1 else 256 * Pow256(k - 1)
  }

  lemma {:induction false} BigEndianReads(n: nat, k: nat)
    requires n < Pow256(k)
    ensures FromBigEndian(BigEndian(n, k)) == n
  {
    if k > 0 {
      BigEndianReads(n / 256, k - 1);
      var front := BigEndian(n / 256, k - 1);
      assert (front + [n % 256])[..|front|] == front;
    }
  }

  /** The ten bytes of an element id are those of its clock, then those of its origin. */
  lemma {:induction false} EidBytes(hlc: nat, origin: nat)
    requires origin < 0x1_0000
    ensures BigEndian(hlc * 0x1_0000 + origin, 10) == BigEndian(hlc, 8) + BigEndian(origin, 2)
  {
    var n := hlc * 0x1_0000 + origin;
    assert n / 256 / 256 == hlc && n % 256 == origin % 256 && n / 256 % 256 == origin / 256;
    assert BigEndian(n, 10) == BigEndian(hlc, 8) + [n / 256 % 256] + [n % 256];
    assert BigEndian(origin, 2) == BigEndian(origin / 256 / 256, 0) + [origin / 256 % 256] + [origin % 256];
  }
}
