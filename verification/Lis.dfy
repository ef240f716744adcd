/** Longest increasing subsequence with a Fenwick tree of prefix maxima. */
module Lis {
  import S = Sorting

  // ----- the Fenwick index arithmetic --------------------------------------

  /** The lowest set bit: `q & -q`, and `q - (q & (q - 1))`. */
  function LowBit(q: nat): (b: nat)
    requires q > 0
    ensures 0 < b <= q
  {
    if q % 2 == 1 then 1 else 2 * LowBit(q / 2)
  }

  /** Node q holds the maximum over the ranks it covers. */
  predicate Covers(q: nat, r: nat) {
    q > 0 && q - LowBit(q) < r <= q
  }

  lemma {:induction false} LowBitInside(q: nat, t: nat)
    requires q > 0 && 0 < t < LowBit(q)
    ensures LowBit(q + t) <= t
  {
    if t % 2 == 0 {
      assert (q + t) / 2 == q / 2 + t / 2;
      LowBitInside(q / 2, t / 2);
    }
  }

  lemma {:induction false} LowBitNext(q: nat)
    requires q > 0
    ensures LowBit(q + LowBit(q)) >= 2 * LowBit(q)
  {
    if q % 2 == 0 {
      LowBitNext(q / 2);
      assert (q + LowBit(q)) / 2 == q / 2 + LowBit(q / 2);
    } else {
      assert LowBit(q + 1) == 2 * LowBit((q + 1) / 2);
    }
  }

  /** The next node covering r after q is q plus its lowest bit. */
  lemma {:induction false} NextCover(q: nat, r: nat)
    requires Covers(q, r)
    ensures Covers(q + LowBit(q), r)
    ensures forall s :: q < s < q + LowBit(q) ==> !Covers(s, r)
  {
    LowBitNext(q);
    forall s | q < s < q + LowBit(q) ensures !Covers(s, r) {
      LowBitInside(q, s - q);
    }
  }

  lemma {:induction false} SelfCover(r: nat)
    requires r > 0
    ensures Covers(r, r)
    ensures forall s :: 0 < s < r ==> !Covers(s, r)
  {
  }

  // ----- maxima ------------------------------------------------------------

  /** v is the largest suffix value among positions from `from` on with rank in (lo, hi]. */
  ghost predicate IsBest(v: nat, ranks: seq<nat>, suffix: seq<nat>, from: nat, lo: int, hi: int)
    requires |ranks| == |suffix|
  {
    && (forall j :: from <= j < |ranks| && lo < ranks[j] <= hi ==> suffix[j] <= v)
    && (v == 0 || exists j :: from <= j < |ranks| && lo < ranks[j] <= hi && suffix[j] == v)
  }

  ghost predicate FenwickOk(bit: seq<nat>, ranks: seq<nat>, suffix: seq<nat>, from: nat)
    requires |ranks| == |suffix|
  {
    forall q :: 0 < q < |bit| ==> IsBest(bit[q], ranks, suffix, from, q - LowBit(q), q)
  }

  lemma {:induction false} BestJoin(v: nat, w: nat, ranks: seq<nat>, suffix: seq<nat>, from: nat, lo: int, mid: int,
      hi: int)
    requires |ranks| == |suffix| && lo <= mid <= hi
    requires IsBest(v, ranks, suffix, from, lo, mid) && IsBest(w, ranks, suffix, from, mid, hi)
    ensures IsBest(if v < w then w else v, ranks, suffix, from, lo, hi)
  {
  }

  lemma {:induction false} BestExtend(v: nat, ranks: seq<nat>, suffix: seq<nat>, i: nat, x: nat, lo: int, hi: int)
    requires |ranks| == |suffix| && i < |suffix| && x > 0
    requires IsBest(v, ranks, suffix, i + 1, lo, hi)
    ensures var s' := suffix[i := x];
            IsBest(if lo < ranks[i] <= hi && v < x then x else v, ranks, s', i, lo, hi)
  {
    var s' := suffix[i := x];
    assert s'[i] == x;
    if v != 0 {
      var j :| i + 1 <= j < |ranks| && lo < ranks[j] <= hi && suffix[j] == v;
      assert s'[j] == v;
    }
  }

  /** Maximum over ranks up to `hi`. */
  method Query(bit: array<nat>, hi: nat, ghost ranks: seq<nat>, ghost suffix: seq<nat>, ghost from: nat)
    returns (best: nat)
    requires |ranks| == |suffix| && hi < bit.Length
    requires FenwickOk(bit[..], ranks, suffix, from)
    ensures IsBest(best, ranks, suffix, from, 0, hi)
  {
    best := 0;
    var q := hi;
    while q > 0
      invariant 0 <= q <= hi
      invariant IsBest(best, ranks, suffix, from, q, hi)
    {
      assert bit[q] == bit[..][q];
      BestJoin(bit[q], best, ranks, suffix, from, q - LowBit(q), q, hi);
      best := if bit[q] < best then best else bit[q];
      q := q - LowBit(q);
    }
  }

  /** Raise every node that covers `rank`. */
  method Update(bit: array<nat>, rank: nat, x: nat)
    requires rank > 0
    modifies bit
    ensures forall q :: 0 <= q < bit.Length ==>
              bit[q] == if Covers(q, rank) && old(bit[q]) < x then x else old(bit[q])
  {
    SelfCover(rank);
    var q := rank;
    while q < bit.Length
      invariant Covers(q, rank)
      invariant forall s :: 0 <= s < bit.Length ==>
                  bit[s] == if s < q && Covers(s, rank) && old(bit[s]) < x then x else old(bit[s])
      decreases bit.Length - q
    {
      NextCover(q, rank);
      bit[q] := if bit[q] < x then x else bit[q];
      q := q + LowBit(q);
    }
  }

  // ----- increasing subsequences -------------------------------------------

  /** Indices of a strictly increasing subsequence. */
  predicate Increasing(xs: seq<nat>, c: seq<nat>) {
    && (forall i :: 0 <= i < |c| ==> c[i] < |xs|)
    && (forall i, j :: 0 <= i < j < |c| ==> c[i] < c[j] && xs[c[i]] < xs[c[j]])
  }

  /** suffix[k] counts a longest increasing subsequence that starts at k. */
  ghost predicate SuffixOk(xs: seq<nat>, suffix: seq<nat>, k: nat)
    requires |xs| == |suffix| && k < |xs|
  {
    && suffix[k] >= 1
    && (forall j :: k < j < |xs| && xs[k] < xs[j] ==> suffix[j] < suffix[k])
    && (suffix[k] == 1 || exists j :: k < j < |xs| && xs[k] < xs[j] && suffix[j] == suffix[k] - 1)
  }

  lemma {:induction false} ChainBound(xs: seq<nat>, suffix: seq<nat>, c: seq<nat>)
    requires |xs| == |suffix| && forall k :: 0 <= k < |xs| ==> SuffixOk(xs, suffix, k)
    requires Increasing(xs, c) && c != []
    ensures |c| <= suffix[c[0]]
  {
    assert SuffixOk(xs, suffix, c[0]);
    if |c| > 1 {
      ChainBound(xs, suffix, c[1..]);
      assert c[0] < c[1] && xs[c[0]] < xs[c[1]];
    }
  }

  /** Descending dense ranks: the largest value has rank 1. */
  ghost predicate RanksOk(xs: seq<nat>, ranks: seq<nat>, n: nat) {
    && |ranks| == |xs|
    && (forall i :: 0 <= i < |xs| ==> 0 < ranks[i] <= n)
    && (forall i, j :: 0 <= i < |xs| && 0 <= j < |xs| ==> (xs[i] < xs[j] <==> ranks[j] < ranks[i]))
  }

  function Position(sorted: seq<nat>, x: nat): (i: nat)
    requires x in sorted
    ensures i < |sorted| && sorted[i] == x
  {
    if sorted[0] == x then 0 else 1 + Position(sorted[1..], x)
  }

  method Ranks(xs: seq<nat>) returns (ranks: seq<nat>, n: nat)
    ensures RanksOk(xs, ranks, n)
  {
    var sorted := S.SetToSeq(set x | x in xs);
    n := |sorted|;
    assert forall i :: 0 <= i < |xs| ==> xs[i] in sorted;
    ranks := RanksIn(sorted, xs);
  }

  function RanksIn(sorted: seq<nat>, xs: seq<nat>): (ranks: seq<nat>)
    requires S.Ascending(sorted) && forall i :: 0 <= i < |xs| ==> xs[i] in sorted
    ensures RanksOk(xs, ranks, |sorted|)
  {
    seq(|xs|, i requires 0 <= i < |xs| => |sorted| - Position(sorted, xs[i]))
  }

  lemma {:induction false} SuffixStep(xs: seq<nat>, ranks: seq<nat>, n: nat, suffix: seq<nat>, i: nat, best: nat)
    requires RanksOk(xs, ranks, n) && |suffix| == |xs| && i < |xs|
    requires forall k :: i < k < |xs| ==> SuffixOk(xs, suffix, k)
    requires IsBest(best, ranks, suffix, i + 1, 0, ranks[i] - 1)
    ensures var s' := suffix[i := best + 1]; forall k :: i <= k < |xs| ==> SuffixOk(xs, s', k)
  {
    var s' := suffix[i := best + 1];
    forall k | i <= k < |xs| ensures SuffixOk(xs, s', k) {
      if k > i {
        assert SuffixOk(xs, suffix, k);
      } else if best > 0 {
        var j :| i + 1 <= j < |ranks| && 0 < ranks[j] <= ranks[i] - 1 && suffix[j] == best;
        assert s'[j] == s'[i] - 1;
      }
    }
  }

  /** Raising the covering nodes takes position i into account. */
  lemma {:induction false} FenwickStep(before: seq<nat>, after: seq<nat>, ranks: seq<nat>, suffix: seq<nat>, i: nat,
      x: nat)
    requires |ranks| == |suffix| && i < |suffix| && x > 0 && FenwickOk(before, ranks, suffix, i + 1) &&
      |after| == |before|
    requires forall q :: 0 <= q < |after| ==> after[q] == if Covers(q, ranks[i]) && before[q] < x then x else before[q]
    ensures FenwickOk(after, ranks, suffix[i := x], i)
  {
    forall q | 0 < q < |after| ensures IsBest(after[q], ranks, suffix[i := x], i, q - LowBit(q), q) {
      assert IsBest(before[q], ranks, suffix, i + 1, q - LowBit(q), q);
      BestExtend(before[q], ranks, suffix, i, x, q - LowBit(q), q);
    }
  }

  method Suffixes(xs: seq<nat>) returns (suffix: seq<nat>)
    ensures |suffix| == |xs| && forall k :: 0 <= k < |xs| ==> SuffixOk(xs, suffix, k)
  {
    var ranks, n := Ranks(xs);
    var bit := new nat[n + 1](_ => 0);
    suffix := seq(|xs|, _ => 0);
    var i := |xs|;
    while i > 0
      invariant 0 <= i <= |xs| && |suffix| == |xs| && fresh(bit)
      invariant forall k :: i <= k < |xs| ==> SuffixOk(xs, suffix, k)
      invariant FenwickOk(bit[..], ranks, suffix, i)
    {
      i := i - 1;
      var best := Query(bit, ranks[i] - 1, ranks, suffix, i + 1);
      SuffixStep(xs, ranks, n, suffix, i, best);
      ghost var before := bit[..];
      Update(bit, ranks[i], best + 1);
      FenwickStep(before, bit[..], ranks, suffix, i, best + 1);
      suffix := suffix[i := best + 1];
    }
  }

  method Max(s: seq<nat>) returns (m: nat)
    ensures forall x :: x in s ==> x <= m
    ensures m == 0 || m in s
  {
    m := 0;
    for i := 0 to |s|
      invariant forall j :: 0 <= j < i ==> s[j] <= m
      invariant m == 0 || m in s
    {
      if s[i] > m { m := s[i]; }
    }
  }

  /** A position from i on that continues `out` by `remaining` elements. */
  ghost predicate Continues(xs: seq<nat>, suffix: seq<nat>, out: seq<nat>, i: nat, remaining: nat, j: nat)
    requires |suffix| == |xs| && Increasing(xs, out)
  {
    i <= j < |xs| && (out != [] ==> xs[out[|out| - 1]] < xs[j]) && suffix[j] >= remaining
  }

  /** Elements before i were picked, and `remaining` more can follow. */
  ghost predicate Picking(xs: seq<nat>, suffix: seq<nat>, out: seq<nat>, i: nat, remaining: nat)
    requires |suffix| == |xs|
  {
    && Increasing(xs, out) && (forall k :: 0 <= k < |out| ==> out[k] < i)
    && (remaining > 0 ==> exists j: nat :: Continues(xs, suffix, out, i, remaining, j))
  }

  lemma {:induction false} PickNext(xs: seq<nat>, suffix: seq<nat>, out: seq<nat>, i: nat, remaining: nat)
    requires |suffix| == |xs| && i < |xs| && Picking(xs, suffix, out, i, remaining) && SuffixOk(xs, suffix, i)
    requires remaining > 0 && (out == [] || xs[out[|out| - 1]] < xs[i]) && suffix[i] >= remaining
    ensures Picking(xs, suffix, out + [i], i + 1, remaining - 1)
  {
    var out' := out + [i];
    forall a, b | 0 <= a < b < |out'| ensures out'[a] < out'[b] && xs[out'[a]] < xs[out'[b]] {
      if b == |out| && a < |out| - 1 { assert xs[out[a]] < xs[out[|out| - 1]]; }
    }
    if remaining > 1 {
      var j :| i < j < |xs| && xs[i] < xs[j] && suffix[j] == suffix[i] - 1;
      assert Continues(xs, suffix, out', i + 1, remaining - 1, j);
    }
  }

  lemma {:induction false} PickNot(xs: seq<nat>, suffix: seq<nat>, out: seq<nat>, i: nat, remaining: nat)
    requires |suffix| == |xs| && i < |xs| && Picking(xs, suffix, out, i, remaining)
    requires !(remaining > 0 && (out == [] || xs[out[|out| - 1]] < xs[i]) && suffix[i] >= remaining)
    ensures Picking(xs, suffix, out, i + 1, remaining)
  {
    if remaining > 0 {
      var j: nat :| Continues(xs, suffix, out, i, remaining, j);
      assert Continues(xs, suffix, out, i + 1, remaining, j);
    }
  }

  lemma {:induction false} PickFirst(xs: seq<nat>, suffix: seq<nat>, longest: nat)
    requires |suffix| == |xs| && (longest == 0 || longest in suffix)
    ensures Picking(xs, suffix, [], 0, longest)
  {
    if longest > 0 {
      var j :| 0 <= j < |suffix| && suffix[j] == longest;
      assert Continues(xs, suffix, [], 0, longest, j);
    }
  }

  /** Indices of a longest strictly increasing subsequence. */
  method Longest(xs: seq<nat>) returns (out: seq<nat>)
    ensures Increasing(xs, out)
    ensures forall c :: Increasing(xs, c) ==> |c| <= |out|
  {
    var suffix := Suffixes(xs);
    var longest := Max(suffix);
    var remaining := longest;
    out := [];
    PickFirst(xs, suffix, longest);
    for i := 0 to |xs|
      invariant |out| + remaining == longest && Picking(xs, suffix, out, i, remaining)
    {
      if remaining > 0 && (out == [] || xs[out[|out| - 1]] < xs[i]) && suffix[i] >= remaining {
        assert SuffixOk(xs, suffix, i);
        PickNext(xs, suffix, out, i, remaining);
        out := out + [i];
        remaining := remaining - 1;
      } else {
        PickNot(xs, suffix, out, i, remaining);
      }
    }
    forall c | Increasing(xs, c) ensures |c| <= |out| {
      if c != [] {
        ChainBound(xs, suffix, c);
        assert suffix[c[0]] in suffix;
      }
    }
  }
}
