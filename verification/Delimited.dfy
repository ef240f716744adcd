/** Sequences of self-delimiting encodings: reading them, splitting off the last, and their prefixes. */
module Delimited {
  import opened ByteStrings
  import opened Options

  /** A decoded value and how many bytes it took. */
  datatype Read<+T> = Read(value: T, used: nat)

  /** A decoder's answer; one that does not advance, or runs past the end, is none. */
  function Taken<T>(decode: Bytes -> Option<Read<T>>, buf: Bytes): (r: Option<Read<T>>)
    ensures r.Some? ==> 0 < r.value.used <= |buf|
  {
    var r := decode(buf);
    if r.Some? && 0 < r.value.used <= |buf| then r else None
  }

  /** The encodings of values one after the other. */
  function Joined<T>(encode: T -> Bytes, p: seq<T>): Bytes {
    if p == [] then [] else encode(p[0]) + Joined(encode, p[1..])
  }

  // ----- reading everything ------------------------------------------------

  function DecodeAll<T>(decode: Bytes -> Option<Read<T>>, buf: Bytes): Option<seq<T>>
    decreases |buf|
  {
    if buf == [] then Some([])
    else
      match Taken(decode, buf)
      case None => None
      case Some(Read(x, n)) => Prefixed([x], DecodeAll(decode, buf[n..]))
  }

  function Prefixed<T>(front: seq<T>, rest: Option<seq<T>>): Option<seq<T>> {
    match rest case None => None case Some(p) => Some(front + p)
  }

  lemma {:induction false} PrefixedStep<T>(front: seq<T>, x: T, rest: Option<seq<T>>)
    ensures Prefixed(front, Prefixed([x], rest)) == Prefixed(front + [x], rest)
  {
    if rest.Some? { assert front + ([x] + rest.value) == (front + [x]) + rest.value; }
  }

  method ReadAll<T>(decode: Bytes -> Option<Read<T>>, buf: Bytes) returns (r: Option<seq<T>>)
    ensures r == DecodeAll(decode, buf)
  {
    var read: seq<T> := [];
    var pos := 0;
    NothingRead(decode, buf);
    while pos < |buf|
      invariant pos <= |buf| && DecodeAll(decode, buf) == Prefixed(read, DecodeAll(decode, buf[pos..]))
    {
      var next := Taken(decode, buf[pos..]);
      if next.None? {
        return None;
      }
      assert buf[pos..][next.value.used..] == buf[pos + next.value.used..];
      PrefixedStep(read, next.value.value, DecodeAll(decode, buf[pos + next.value.used..]));
      read := read + [next.value.value];
      pos := pos + next.value.used;
    }
    assert read + [] == read;
    r := Some(read);
  }

  lemma {:induction false} NothingRead<T>(decode: Bytes -> Option<Read<T>>, buf: Bytes)
    ensures DecodeAll(decode, buf) == Prefixed([], DecodeAll(decode, buf[0..]))
  {
    assert buf[0..] == buf;
    var p := DecodeAll(decode, buf);
    if p.Some? { assert [] + p.value == p.value; }
  }

  // ----- splitting off the last --------------------------------------------

  /** The bytes before the last value, and that value. */
  datatype Split<+T> = Split(parent: Bytes, last: T)

  function SplitAll<T>(decode: Bytes -> Option<Read<T>>, buf: Bytes): Option<Split<T>>
    decreases |buf|
  {
    match Taken(decode, buf)
    case None => None
    case Some(Read(x, n)) => if n == |buf| then Some(Split([], x)) else Behind(buf[..n], SplitAll(decode, buf[n..]))
  }

  /** A split of what follows, seen from before `front`. */
  function Behind<T>(front: Bytes, rest: Option<Split<T>>): Option<Split<T>> {
    match rest case None => None case Some(Split(parent, last)) => Some(Split(front + parent, last))
  }

  /** What a reader that has consumed pos bytes knows: the split of the rest gives the whole. */
  predicate Splitting<T(==)>(decode: Bytes -> Option<Read<T>>, buf: Bytes, pos: nat, last: Option<Split<T>>) {
    && pos <= |buf|
    && SplitAll(decode, buf) == (if pos < |buf| then Behind(buf[..pos], SplitAll(decode, buf[pos..])) else last)
  }

  lemma {:induction false} BehindTwo<T>(buf: Bytes, pos: nat, n: nat, rest: Option<Split<T>>)
    requires pos + n <= |buf|
    ensures Behind(buf[..pos], Behind(buf[pos..][..n], rest)) == Behind(buf[..pos + n], rest)
  {
    if rest.Some? {
      assert buf[..pos] + (buf[pos..][..n] + rest.value.parent) == buf[..pos + n] + rest.value.parent;
    }
  }

  lemma {:induction false} SplitStep<T>(decode: Bytes -> Option<Read<T>>, buf: Bytes, pos: nat, last: Option<Split<T>>)
    requires Splitting(decode, buf, pos, last) && pos < |buf| && Taken(decode, buf[pos..]).Some?
    ensures var next := Taken(decode, buf[pos..]).value;
            Splitting(decode, buf, pos + next.used, Some(Split(buf[..pos], next.value)))
  {
    var n := Taken(decode, buf[pos..]).value.used;
    if pos + n == |buf| {
      assert buf[..pos] + [] == buf[..pos];
    } else {
      assert buf[pos..][n..] == buf[pos + n..];
      BehindTwo(buf, pos, n, SplitAll(decode, buf[pos + n..]));
    }
  }

  lemma {:induction false} SplitStart<T>(decode: Bytes -> Option<Read<T>>, buf: Bytes)
    ensures Splitting(decode, buf, 0, None)
  {
    assert buf[0..] == buf;
    var r := SplitAll(decode, buf);
    if r.Some? { assert buf[..0] + r.value.parent == r.value.parent; }
  }

  method SplitBytes<T(==)>(decode: Bytes -> Option<Read<T>>, buf: Bytes) returns (r: Option<Split<T>>)
    ensures r == SplitAll(decode, buf)
  {
    var pos := 0;
    r := None;
    SplitStart(decode, buf);
    while pos < |buf|
      invariant Splitting(decode, buf, pos, r)
    {
      var next := Taken(decode, buf[pos..]);
      if next.None? {
        return None;
      }
      SplitStep(decode, buf, pos, r);
      r := Some(Split(buf[..pos], next.value.value));
      pos := pos + next.value.used;
    }
  }

  // ----- encoders and decoders that agree ----------------------------------

  /** The encoding of x is read back whatever follows it. */
  ghost predicate Delimits<T(!new)>(encode: T -> Bytes, decode: Bytes -> Option<Read<T>>, x: T) {
    encode(x) != [] && forall rest: Bytes :: decode(encode(x) + rest) == Some(Read(x, |encode(x)|))
  }

  ghost predicate AllDelimited<T(!new)>(encode: T -> Bytes, decode: Bytes -> Option<Read<T>>, p: seq<T>) {
    forall i :: 0 <= i < |p| ==> Delimits(encode, decode, p[i])
  }

  lemma {:induction false} FirstReads<T(!new)>(encode: T -> Bytes, decode: Bytes -> Option<Read<T>>, x: T, rest: Bytes)
    requires Delimits(encode, decode, x)
    ensures Taken(decode, encode(x) + rest) == Some(Read(x, |encode(x)|))
    ensures (encode(x) + rest)[|encode(x)|..] == rest && (encode(x) + rest)[..|encode(x)|] == encode(x)
  {}

  /** What was joined is read back. */
  lemma {:induction false} JoinedReads<T(!new)>(encode: T -> Bytes, decode: Bytes -> Option<Read<T>>, p: seq<T>)
    requires AllDelimited(encode, decode, p)
    ensures DecodeAll(decode, Joined(encode, p)) == Some(p)
    decreases |p|
  {
    if p != [] {
      FirstReads(encode, decode, p[0], Joined(encode, p[1..]));
      JoinedReads(encode, decode, p[1..]);
      assert p == [p[0]] + p[1..];
    }
  }

  /** Splitting what was joined splits before the last value. */
  lemma {:induction false} JoinedSplits<T(!new)>(encode: T -> Bytes, decode: Bytes -> Option<Read<T>>, p: seq<T>, x: T)
    requires AllDelimited(encode, decode, p + [x])
    ensures SplitAll(decode, Joined(encode, p + [x])) == Some(Split(Joined(encode, p), x))
    decreases |p|
  {
    assert Delimits(encode, decode, (p + [x])[|p|]);
    if p == [] {
      assert p + [x] == [x] && [x][1..] == [];
      FirstReads(encode, decode, x, []);
    } else {
      assert (p + [x])[0] == p[0] && (p + [x])[1..] == p[1..] + [x];
      var rest := Joined(encode, p[1..] + [x]);
      FirstReads(encode, decode, p[0], rest);
      JoinedSplits(encode, decode, p[1..], x);
      assert rest != [];
    }
  }

  /** Equal bytes begin with the same value and go on equally. */
  lemma {:induction false} FirstUnique<T(!new)>(
      encode: T -> Bytes, decode: Bytes -> Option<Read<T>>, x: T, y: T, r: Bytes, s: Bytes)
    requires Delimits(encode, decode, x) && Delimits(encode, decode, y)
    ensures encode(x) + r <= encode(y) + s <==> x == y && r <= s
  {
    if encode(x) + r <= encode(y) + s {
      var z := (encode(y) + s)[|encode(x) + r|..];
      assert encode(y) + s == encode(x) + (r + z);
      FirstReads(encode, decode, x, r + z);
      FirstReads(encode, decode, y, s);
      assert s == r + z;
    }
  }

  /** The bytes of one list begin with those of another exactly when the list does. */
  lemma {:induction false} JoinedPrefix<T(!new)>(encode: T -> Bytes, decode: Bytes -> Option<Read<T>>, p: seq<T>,
      q: seq<T>)
    requires AllDelimited(encode, decode, p) && AllDelimited(encode, decode, q)
    ensures Joined(encode, p) <= Joined(encode, q) <==> p <= q
    decreases |p|
  {
    if p != [] && q != [] {
      FirstUnique(encode, decode, p[0], q[0], Joined(encode, p[1..]), Joined(encode, q[1..]));
      JoinedPrefix(encode, decode, p[1..], q[1..]);
      assert p == [p[0]] + p[1..] && q == [q[0]] + q[1..];
    }
  }
}
