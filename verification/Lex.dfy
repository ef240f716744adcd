/** Byte strings in lexicographic order. */
module Lex {
  import opened ByteStrings

  predicate Le(s: Bytes, t: Bytes) {
    s == [] || (t != [] && (s[0] < t[0] || (s[0] == t[0] && Le(s[1..], t[1..]))))
  }

  predicate Lt(s: Bytes, t: Bytes) {
    Le(s, t) && s != t
  }

  lemma {:induction false} Total(s: Bytes, t: Bytes)
    ensures Le(s, t) || Le(t, s)
  {
    if s != [] && t != [] && s[0] == t[0] { Total(s[1..], t[1..]); }
  }

  lemma {:induction false} Transitive(s: Bytes, t: Bytes, u: Bytes)
    requires Le(s, t) && Le(t, u)
    ensures Le(s, u)
  {
    if s != [] && s[0] == t[0] == u[0] { Transitive(s[1..], t[1..], u[1..]); }
  }

  lemma {:induction false} Antisymmetric(s: Bytes, t: Bytes)
    requires Le(s, t) && Le(t, s)
    ensures s == t
  {
    if s != [] && t != [] {
      Antisymmetric(s[1..], t[1..]);
      assert s == [s[0]] + s[1..] && t == [t[0]] + t[1..];
    }
  }
}
