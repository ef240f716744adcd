/** An array written in one go: each element anchored on the one before it. */
module RgaChain {
  import opened Rga
  import S = Sorting

  function LeftOf(c: seq<nat>, i: nat): nat
    requires i < |c|
  {
    if i == 0 then HEAD else c[i - 1]
  }

  /** The live elements es are c, chained in that order. */
  ghost predicate Chained(es: seq<Elem>, c: seq<nat>) {
    && Wf(es) && S.Distinct(c) && (forall n :: n in c ==> n != HEAD)
    && (forall i :: 0 <= i < |c| ==> Elem(c[i], LeftOf(c, i), true) in es)
    && (forall e :: e in es ==> exists i :: 0 <= i < |c| && e == Elem(c[i], LeftOf(c, i), true))
  }

  /** What hangs on the k-th anchor: the next element only. */
  function Next(c: seq<nat>, k: nat): seq<Item>
    requires k <= |c|
  {
    if k < |c| then [Item(c[k], true)] else []
  }

  function AnchorAt(c: seq<nat>, k: nat): nat
    requires k <= |c|
  {
    if k == 0 then HEAD else c[k - 1]
  }

  lemma {:induction false} ChainAnchor(es: seq<Elem>, c: seq<nat>, i: nat)
    requires Chained(es, c) && i < |c|
    ensures Anchor(Present(es), Elem(c[i], LeftOf(c, i), true)) == LeftOf(c, i)
  {
    if i > 0 { assert Elem(c[i - 1], LeftOf(c, i - 1), true) in es; }
  }

  lemma {:induction false} ChainKidsIff(es: seq<Elem>, c: seq<nat>, k: nat, x: Item)
    requires Chained(es, c) && k <= |c|
    ensures x in Kids(es, AnchorAt(c, k)) <==> x in Next(c, k)
  {
    var a := AnchorAt(c, k);
    KidsIff(es, a);
    if x in Kids(es, a) {
      var e :| e in es && Anchor(Present(es), e) == a && x == Item(e.eid, e.live);
      var i :| 0 <= i < |c| && e == Elem(c[i], LeftOf(c, i), true);
      ChainAnchor(es, c, i);
      assert LeftOf(c, i) == AnchorAt(c, k);
      assert i == k;
    }
    if x in Next(c, k) {
      var e := Elem(c[k], LeftOf(c, k), true);
      ChainAnchor(es, c, k);
      assert e in es;
    }
  }

  lemma {:induction false} ChainKids(es: seq<Elem>, c: seq<nat>, k: nat)
    requires Chained(es, c) && k <= |c|
    ensures Kids(es, AnchorAt(c, k)) == Next(c, k)
  {
    var s, t := Kids(es, AnchorAt(c, k)), Next(c, k);
    KidsRising(es, AnchorAt(c, k));
    forall x ensures x in s <==> x in t { ChainKidsIff(es, c, k, x); }
    ShortUnique(s, t);
  }

  lemma {:induction false} ShortUnique(s: seq<Item>, t: seq<Item>)
    requires Rising(s) && |t| <= 1 && forall x :: x in s <==> x in t
    ensures s == t
  {
    assert t != [] ==> t[0] in t && t[0] in s;
    assert s != [] ==> s[0] in s;
    forall i | 0 <= i < |s| ensures |t| == 1 && s[i] == t[0] { assert s[i] in s && s[i] in t; }
    if |s| > 1 { FirstTwo(s); }
    if t != [] { assert |s| == 1 && s[0] == t[0]; }
  }

  lemma {:induction false} FirstTwo(s: seq<Item>)
    requires Rising(s) && |s| > 1
    ensures s[0] != s[1]
  {}

  function Items(c: seq<nat>, k: nat): seq<Item>
    requires k <= |c|
    decreases |c| - k
  {
    if k == |c| then [] else [Item(c[k], true)] + Items(c, k + 1)
  }

  lemma {:induction false} ChainBelow(es: seq<Elem>, c: seq<nat>, k: nat)
    requires Chained(es, c) && k <= |c| && Reachable(es, AnchorAt(c, k))
    ensures Below(es, AnchorAt(c, k)) == Items(c, k)
    decreases |c| - k
  {
    var a := AnchorAt(c, k);
    ChainKids(es, c, k);
    KidsUnder(es, a);
    if k < |c| {
      var x := Item(c[k], true);
      assert x in [x];
      assert AnchorAt(c, k + 1) == c[k];
      ChainBelow(es, c, k + 1);
      OneKid(es, a, x);
    }
  }

  lemma {:induction false} OneKid(es: seq<Elem>, a: nat, x: Item)
    requires Wf(es) && Under(es, [x], a)
    ensures x in [x] && BelowList(es, a, [x]) == [x] + Below(es, x.eid)
  {
    var none: seq<Item> := [x][..0];
    assert none == [];
    assert BelowList(es, a, [x]) == [x] + Below(es, x.eid) + BelowList(es, a, none);
  }

  /** A chain is listed in the order it was written. */
  lemma {:induction false} ChainOrder(es: seq<Elem>, c: seq<nat>)
    requires Chained(es, c)
    ensures Order(es) == Items(c, 0)
  {
    HeadReachable(es);
    ChainBelow(es, c, 0);
  }

  lemma {:induction false} ItemsAt(c: seq<nat>, k: nat)
    requires k <= |c|
    ensures |Items(c, k)| == |c| - k && forall i :: 0 <= i < |c| - k ==> Items(c, k)[i] == Item(c[k + i], true)
    decreases |c| - k
  {
    if k < |c| {
      ItemsAt(c, k + 1);
      var rest := Items(c, k + 1);
      forall i | 0 <= i < |c| - k ensures ([Item(c[k], true)] + rest)[i] == Item(c[k + i], true) {
        if i > 0 { assert rest[i - 1] == Item(c[k + 1 + (i - 1)], true); }
      }
    }
  }
}
