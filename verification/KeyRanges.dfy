/** Prefix scans: the range from a key to its upper bound holds exactly the keys that start with it. */
module KeyRanges {
  import opened ByteStrings
  import opened Options
  import opened Lex

  predicate AreBytes(s: Bytes) {
    forall b :: b in s ==> b < 256
  }

  // ----- the range of a prefix scan ----------------------------------------

  /** The least byte string above everything that starts with the prefix. */
  function Upper(prefix: Bytes): Option<Bytes> {
    if prefix == [] then None
    else
      var front, last := prefix[..|prefix| - 1], prefix[|prefix| - 1];
      if last == 255 then Upper(front) else Some(front + [last + 1])
  }

  method PrefixUpperBound(prefix: Bytes) returns (r: Option<Bytes>)
    ensures r == Upper(prefix)
  {
    var end := prefix;
    while end != []
      invariant Upper(end) == Upper(prefix)
      decreases |end|
    {
      var last := end[|end| - 1];
      if last == 255 {
        end := end[..|end| - 1];
      } else {
        assert end[|end| - 1 := last + 1] == end[..|end| - 1] + [last + 1];
        return Some(end[|end| - 1 := last + 1]);
      }
    }
    r := None;
  }

  /** A scan from k visits x. */
  predicate InRange(k: Bytes, x: Bytes) {
    Le(k, x) && (Upper(k).Some? ==> Lt(x, Upper(k).value))
  }

  lemma {:induction false} PrefixLe(s: Bytes, t: Bytes)
    ensures Le(s, s + t)
  {
    if s != [] {
      PrefixLe(s[1..], t);
      assert (s + t)[1..] == s[1..] + t;
    }
  }

  /** A common front part does not matter. */
  lemma {:induction false} LeCancel(s: Bytes, t: Bytes, u: Bytes)
    ensures Le(s + t, s + u) <==> Le(t, u)
  {
    if s == [] {
      assert s + t == t && s + u == u;
    } else {
      LeCancel(s[1..], t, u);
      assert (s + t)[1..] == s[1..] + t && (s + u)[1..] == s[1..] + u;
    }
  }

  /** What lies between two extensions of s is an extension of s. */
  lemma {:induction false} Between(s: Bytes, t: Bytes, u: Bytes, x: Bytes)
    requires Le(s + t, x) && Le(x, s + u)
    ensures s <= x
  {
    if s != [] {
      assert (s + t)[0] == s[0] && (s + u)[0] == s[0];
      assert (s + t)[1..] == s[1..] + t && (s + u)[1..] == s[1..] + u;
      Between(s[1..], t, u, x[1..]);
      assert x == [x[0]] + x[1..] && s == [s[0]] + s[1..];
    }
  }

  lemma {:induction false} RestOf(s: Bytes, x: Bytes)
    requires s <= x
    ensures x == s + x[|s|..]
  {}

  lemma {:induction false} OneByte(b: nat, rest: Bytes)
    requires Le([b], rest) && Lt(rest, [b + 1])
    ensures rest != [] && rest[0] == b
  {
    AtMostOneByte(rest, b + 1);
  }

  lemma {:induction false} AtMostOneByte(rest: Bytes, c: nat)
    requires rest != [] && Le(rest, [c])
    ensures rest[0] < c || rest == [c]
  {
    assert [c][1..] == [] && rest == [rest[0]] + rest[1..];
  }

  /** Below the upper bound a scan sees only extensions, when the last byte can grow. */
  lemma {:induction false} RangeBelow(front: Bytes, last: nat, x: Bytes)
    requires Le(front + [last], x) && Lt(x, front + [last + 1])
    ensures front + [last] <= x
  {
    Between(front, [last], [last + 1], x);
    RestOf(front, x);
    var rest := x[|front|..];
    LeCancel(front, [last], rest);
    LeCancel(front, rest, [last + 1]);
    OneByte(last, rest);
  }

  lemma {:induction false} RangeFull(front: Bytes, x: Bytes)
    requires Le(front + [255], x) && front <= x && AreBytes(x)
    ensures front + [255] <= x
  {
    RestOf(front, x);
    var rest := x[|front|..];
    LeCancel(front, [255], rest);
    assert rest[0] == x[|front|] && x[|front|] in x;
  }

  lemma {:induction false} LeFront(front: Bytes, last: nat, x: Bytes)
    requires Le(front + [last], x)
    ensures Le(front, x)
  {
    PrefixLe(front, [last]);
    Transitive(front, front + [last], x);
  }

  /** Everything in the range starts with the key. */
  lemma {:induction false} InRangeStarts(k: Bytes, x: Bytes)
    requires AreBytes(x) && InRange(k, x)
    ensures k <= x
    decreases |k|
  {
    if k != [] {
      var front, last := k[..|k| - 1], k[|k| - 1];
      assert k == front + [last];
      if last == 255 {
        LeFront(front, last, x);
        InRangeStarts(front, x);
        RangeFull(front, x);
      } else {
        RangeBelow(front, last, x);
      }
    }
  }

  lemma {:induction false} BelowUpper(k: Bytes, t: Bytes)
    requires AreBytes(k) && Upper(k).Some?
    ensures Lt(k + t, Upper(k).value)
    decreases |k|
  {
    var front, last := k[..|k| - 1], k[|k| - 1];
    assert k == front + [last];
    if last == 255 {
      assert forall b :: b in front ==> b in k;
      BelowUpper(front, [last] + t);
      assert front + ([last] + t) == k + t;
    } else {
      LeCancel(front, [last] + t, [last + 1]);
      assert front + ([last] + t) == k + t;
      assert (k + t)[|front|] == last && (front + [last + 1])[|front|] == last + 1;
    }
  }

  /** A prefix scan visits exactly the keys that start with its key. */
  lemma {:induction false} RangeIsPrefix(k: Bytes, x: Bytes)
    requires AreBytes(k) && AreBytes(x)
    ensures InRange(k, x) <==> k <= x
  {
    if InRange(k, x) { InRangeStarts(k, x); }
    if k <= x {
      RestOf(k, x);
      PrefixLe(k, x[|k|..]);
      if Upper(k).Some? { BelowUpper(k, x[|k|..]); }
    }
  }
}
