/** Finite sets of numbers: the n highest elements, and lists in descending order. */
module TopSets {
  import S = Sorting

  function Above(s: set<nat>, x: nat): set<nat> {
    set y | y in s && y > x
  }

  /** The n highest elements of s. */
  function Top(s: set<nat>, n: nat): set<nat> {
    set x | x in s && |Above(s, x)| < n
  }

  lemma {:induction false} AboveMonotone(s: set<nat>, t: set<nat>, x: nat)
    requires s <= t
    ensures |Above(s, x)| <= |Above(t, x)|
  {
    S.SubsetSize(Above(s, x), Above(t, x));
  }

  /** A set that fits is its own top. */
  lemma {:induction false} TopAll(s: set<nat>, n: nat)
    requires |s| <= n
    ensures Top(s, n) == s
  {
    forall x | x in s ensures |Above(s, x)| < n {
      assert Above(s, x) <= s - {x};
      S.SubsetSize(Above(s, x), s - {x});
    }
  }

  /** A set that does not fit fills the top. */
  lemma {:induction false} TopFull(s: set<nat>, n: nat)
    requires |s| >= n
    ensures |Top(s, n)| == n
  {
    if |s| == n {
      TopAll(s, n);
    } else {
      var m := S.Least(s);
      var t := s - {m};
      TopFull(t, n);
      assert Top(s, n) == Top(t, n) by {
        forall x | x in t ensures Above(s, x) == Above(t, x) {}
        assert Above(s, m) == t;
      }
    }
  }

  lemma {:induction false} TopSize(s: set<nat>, n: nat)
    ensures |Top(s, n)| <= n
  {
    if |s| <= n { TopAll(s, n); } else { TopFull(s, n); }
  }

  /** Elements outside the top have n top elements above them. */
  lemma {:induction false} OutsideTop(s: set<nat>, n: nat, y: nat)
    requires y in s && y !in Top(s, n)
    ensures |Above(Top(s, n), y)| >= n
  {
    var above := Above(s, y);
    TopFull(above, n);
    assert Top(above, n) <= Above(Top(s, n), y) by {
      forall x | x in Top(above, n) ensures x in Top(s, n) {
        assert Above(s, x) == Above(above, x);
      }
    }
    S.SubsetSize(Top(above, n), Above(Top(s, n), y));
  }

  /** Cutting a part early does not change the top of the union. */
  lemma {:induction false} TopUnion(s: set<nat>, t: set<nat>, n: nat)
    ensures Top(Top(s, n) + t, n) == Top(s + t, n)
  {
    var u, v := s + t, Top(s, n) + t;
    forall x ensures x in Top(v, n) <==> x in Top(u, n) {
      AboveMonotone(v, u, x);
      if x in Top(u, n) {
        AboveMonotone(s, u, x);
      }
      if x in v && x !in Top(u, n) {
        if y :| y in Above(u, x) && y !in v {
          OutsideTop(s, n, y);
          assert Above(Top(s, n), y) <= Above(v, x);
          S.SubsetSize(Above(Top(s, n), y), Above(v, x));
        } else {
          assert Above(u, x) == Above(v, x);
        }
      }
    }
  }

  /** A set between the top and the whole has the same top. */
  lemma {:induction false} TopBetween(s: set<nat>, t: set<nat>, n: nat)
    requires Top(s, n) <= t <= s
    ensures Top(t, n) == Top(s, n)
  {
    TopUnion(s, t, n);
    assert Top(s, n) + t == t && s + t == s;
  }

  // ----- descending lists --------------------------------------------------

  predicate Descending(s: seq<nat>) {
    forall i, j :: 0 <= i < j < |s| ==> s[i] > s[j]
  }

  function Elements(s: seq<nat>): set<nat> {
    set x | x in s
  }

  /** Descending lists with the same elements are equal. */
  lemma {:induction false} DescendingUnique(s: seq<nat>, t: seq<nat>)
    requires Descending(s) && Descending(t) && forall x :: x in s <==> x in t
    ensures s == t
  {
    S.StrictUnique(s, t, (x: nat, y: nat) => x > y);
  }

  function Take(s: seq<nat>, n: nat): seq<nat> {
    if |s| <= n then s else s[..n]
  }

  /** Cutting a descending list keeps the top of its elements. */
  lemma {:induction false} TakeIsTop(s: seq<nat>, n: nat)
    requires Descending(s)
    ensures Descending(Take(s, n)) && Elements(Take(s, n)) == Top(Elements(s), n)
  {
    var e := Elements(s);
    forall i | 0 <= i < |s| ensures |Above(e, s[i])| == i { AboveAt(s, i); }
    forall x ensures x in Take(s, n) <==> x in Top(e, n) {
      if x in s { var i :| 0 <= i < |s| && s[i] == x; assert x in Take(s, n) <==> i < n; }
    }
  }

  lemma {:induction false} AboveAt(s: seq<nat>, i: nat)
    requires Descending(s) && i < |s|
    ensures |Above(Elements(s), s[i])| == i
  {
    assert Above(Elements(s), s[i]) == Elements(s[..i]);
    DistinctSize(s[..i]);
  }

  lemma {:induction false} DistinctSize(s: seq<nat>)
    requires Descending(s)
    ensures |Elements(s)| == |s|
  {
    if s != [] {
      DistinctSize(s[1..]);
      assert Elements(s) == {s[0]} + Elements(s[1..]);
      assert s[0] !in Elements(s[1..]);
    }
  }
}
