/**
 * The edits of a text diff are the shortest: no other edits with the same result
 * leave more units of the old text in place, and at the level of characters no
 * others delete and insert less.
 */
module ShortestEdits {
  import opened Options
  import opened RunImages
  import opened TextDiff
  import M = Myers
  import S = Sorting
  import X = TextMerge

  // ----- units are unique --------------------------------------------------

  lemma {:induction false} UnitEnds(us: seq<(nat, nat)>, vs: seq<(nat, nat)>, chars: string, level: Level, i: nat)
    requires AreUnits(us, chars, level) && AreUnits(vs, chars, level) && i < |us| && i < |vs| && us[i].0 == vs[i].0
    ensures us[i].1 >= vs[i].1
  {
    assert i + 1 < |us| ==> Adjoins(us, i + 1);
  }

  lemma {:induction false} UnitAgrees(us: seq<(nat, nat)>, vs: seq<(nat, nat)>, chars: string, level: Level, i: nat)
    requires AreUnits(us, chars, level) && AreUnits(vs, chars, level) && i < |us|
    ensures i < |vs| && us[i] == vs[i]
  {
    if i > 0 {
      UnitAgrees(us, vs, chars, level, i - 1);
      assert Adjoins(us, i);
      assert i < |vs| && Adjoins(vs, i);
    }
    UnitEnds(us, vs, chars, level, i);
    UnitEnds(vs, us, chars, level, i);
  }

  /** A text is cut into units in one way. */
  lemma {:induction false} UnitsUnique(us: seq<(nat, nat)>, vs: seq<(nat, nat)>, chars: string, level: Level)
    requires AreUnits(us, chars, level) && AreUnits(vs, chars, level)
    ensures us == vs
  {
    forall i: nat | i < |us| ensures i < |vs| && us[i] == vs[i] { UnitAgrees(us, vs, chars, level, i); }
    if us == [] && vs != [] { UnitAgrees(vs, us, chars, level, 0); }
    if |us| < |vs| { UnitAgrees(vs, us, chars, level, |us|); }
  }

  // ----- units that edits keep ---------------------------------------------

  /** The unit u stays whole and becomes the unit v. */
  predicate StaysAs(es: seq<Edit>, u: (nat, nat), v: (nat, nat)) {
    Lands(es, u, v) && v.1 - v.0 == u.1 - u.0
  }

  predicate Keeps(ua: seq<(nat, nat)>, ub: seq<(nat, nat)>, es: seq<Edit>, i: nat)
    requires i < |ua|
  {
    exists j :: 0 <= j < |ub| && StaysAs(es, ua[i], ub[j])
  }

  /** The units of the old text that stay whole and are units of the new one. */
  function Kept(ua: seq<(nat, nat)>, ub: seq<(nat, nat)>, es: seq<Edit>): set<nat> {
    set i: nat | i < |ua| && Keeps(ua, ub, es, i)
  }

  lemma {:induction false} UntouchedStays(es: seq<Edit>, from: nat, to: nat, p: nat)
    requires Untouched(es, from, to) && from <= p < to
    ensures !X.Deletes(es, p) && Before(es, from + 1) == Before(es, p + 1)
  {
    SameBefore(es, from + 1, p + 1);
  }

  lemma {:induction false} UntouchedImage(base: string, es: seq<Edit>, from: nat, to: nat, p: nat)
    requires Valid(es, |base|) && Untouched(es, from, to) && from <= p < to <= |base|
    ensures !X.Deletes(es, p) && Image(base, es, p) == p + Before(es, from + 1)
  {
    UntouchedStays(es, from, to, p);
    ImageIs(base, es, p);
  }

  lemma {:induction false} StaysShown(base: string, new_: string, es: seq<Edit>, u: (nat, nat), v: (nat, nat), k: nat)
    requires Valid(es, |base|) && Apply(base, es) == Ok(new_)
    requires u.1 <= |base| && StaysAs(es, u, v) && k < u.1 - u.0
    ensures v.0 + k < |new_| && new_[v.0 + k] == base[u.0 + k]
  {
    UntouchedImage(base, es, u.0, u.1, u.0 + k);
    ImageShows(base, es, u.0 + k);
  }

  /** A unit that stays is the same text. */
  lemma {:induction false} StaysEqual(base: string, new_: string, es: seq<Edit>, u: (nat, nat), v: (nat, nat))
    requires Apply(base, es) == Ok(new_) && u.0 < u.1 <= |base| && StaysAs(es, u, v)
    ensures v.0 < v.1 <= |new_| && base[u.0..u.1] == new_[v.0..v.1]
  {
    AppliesIffValid(base, es);
    StaysShown(base, new_, es, u, v, u.1 - u.0 - 1);
    forall k: nat | k < u.1 - u.0 ensures base[u.0..u.1][k] == new_[v.0..v.1][k] {
      StaysShown(base, new_, es, u, v, k);
    }
  }

  /** Units that stay keep their order. */
  lemma {:induction false} StaysInOrder(base: string, es: seq<Edit>, u: (nat, nat), v: (nat, nat), u': (nat, nat),
      v': (nat, nat))
    requires Valid(es, |base|) && StaysAs(es, u, v) && StaysAs(es, u', v')
    requires u.0 < u.1 <= u'.0 < u'.1 <= |base|
    ensures v.0 < v'.0
  {
    UntouchedImage(base, es, u.0, u.1, u.0);
    UntouchedImage(base, es, u'.0, u'.1, u'.0);
    EndsAfter(base, es, u'.0, u.0);
  }

  lemma {:induction false} TilesOrder(us: seq<(nat, nat)>, len: nat, i: nat, j: nat)
    requires Tiles(us, len) && i < |us| && j < |us| && us[i].0 < us[j].0
    ensures i < j
  {
    if j < i { TilesMonotone(us, len, j, i); }
  }

  // ----- no edits keep more ------------------------------------------------

  ghost function Partner(ua: seq<(nat, nat)>, ub: seq<(nat, nat)>, es: seq<Edit>, i: nat): (j: nat)
    requires i < |ua| && Keeps(ua, ub, es, i)
    ensures j < |ub| && StaysAs(es, ua[i], ub[j])
  {
    var j :| 0 <= j < |ub| && StaysAs(es, ua[i], ub[j]);
    j
  }

  predicate AllKept(ua: seq<(nat, nat)>, ub: seq<(nat, nat)>, es: seq<Edit>, ks: seq<nat>) {
    forall t :: 0 <= t < |ks| ==> ks[t] < |ua| && Keeps(ua, ub, es, ks[t])
  }

  ghost function Paired(ua: seq<(nat, nat)>, ub: seq<(nat, nat)>, es: seq<Edit>, ks: seq<nat>): (r: seq<(nat, nat)>)
    requires AllKept(ua, ub, es, ks)
    ensures |r| == |ks| && forall t :: 0 <= t < |ks| ==> r[t] == (ks[t], Partner(ua, ub, es, ks[t]))
  {
    seq(|ks|, t requires 0 <= t < |ks| => (ks[t], Partner(ua, ub, es, ks[t])))
  }

  lemma {:induction false} PairEqual(base: string, new_: string, ua: seq<(nat, nat)>, ub: seq<(nat, nat)>,
      es: seq<Edit>, i: nat)
    requires Tiles(ua, |base|) && Apply(base, es) == Ok(new_) && i < |ua| && Keeps(ua, ub, es, i)
    ensures UnitEq(base, new_, ua, ub, i, Partner(ua, ub, es, i))
  {
    StaysEqual(base, new_, es, ua[i], ub[Partner(ua, ub, es, i)]);
  }

  lemma {:induction false} PairsRise(base: string, new_: string, ua: seq<(nat, nat)>, ub: seq<(nat, nat)>,
      es: seq<Edit>, i: nat, i': nat)
    requires Tiles(ua, |base|) && Tiles(ub, |new_|) && Valid(es, |base|)
    requires i < i' < |ua| && Keeps(ua, ub, es, i) && Keeps(ua, ub, es, i')
    ensures Partner(ua, ub, es, i) < Partner(ua, ub, es, i')
  {
    var j, j' := Partner(ua, ub, es, i), Partner(ua, ub, es, i');
    TilesMonotone(ua, |base|, i, i');
    StaysInOrder(base, es, ua[i], ub[j], ua[i'], ub[j']);
    TilesOrder(ub, |new_|, j, j');
  }

  /** Kept units and what they become are a common subsequence. */
  lemma {:induction false} KeptIsCommon(base: string, new_: string, ua: seq<(nat, nat)>, ub: seq<(nat, nat)>,
      es: seq<Edit>, ks: seq<nat>, eq: (nat, nat) -> bool)
    requires Tiles(ua, |base|) && Tiles(ub, |new_|) && Apply(base, es) == Ok(new_)
    requires AllKept(ua, ub, es, ks) && S.Ascending(ks)
    requires forall i, j :: UnitEq(base, new_, ua, ub, i, j) ==> eq(i, j)
    ensures M.CommonSubsequence(Paired(ua, ub, es, ks), |ua|, |ub|, eq)
  {
    var ps := Paired(ua, ub, es, ks);
    AppliesIffValid(base, es);
    forall s, t | 0 <= s < t < |ps| ensures ps[s].0 < ps[t].0 && ps[s].1 < ps[t].1 {
      PairsRise(base, new_, ua, ub, es, ks[s], ks[t]);
    }
    forall t | 0 <= t < |ps| ensures ps[t].0 < |ua| && ps[t].1 < |ub| && eq(ps[t].0, ps[t].1) {
      PairEqual(base, new_, ua, ub, es, ks[t]);
    }
  }

  lemma {:induction false} KeptAtMost(base: string, new_: string, ua: seq<(nat, nat)>, ub: seq<(nat, nat)>,
      es: seq<Edit>, pairs: seq<(nat, nat)>)
    requires Tiles(ua, |base|) && Tiles(ub, |new_|) && Apply(base, es) == Ok(new_)
    requires M.IsLongest(pairs, |ua|, |ub|, (i: nat, j: nat) => UnitEq(base, new_, ua, ub, i, j))
    ensures |Kept(ua, ub, es)| <= |pairs|
  {
    var eq := (i: nat, j: nat) => UnitEq(base, new_, ua, ub, i, j);
    var ks := S.SetToSeq(Kept(ua, ub, es));
    forall t | 0 <= t < |ks| ensures ks[t] < |ua| && Keeps(ua, ub, es, ks[t]) { assert ks[t] in ks; }
    KeptIsCommon(base, new_, ua, ub, es, ks, eq);
    assert |Paired(ua, ub, es, ks)| <= |pairs|;
  }

  // ----- the edits of the diff keep that many ------------------------------

  function Firsts(pairs: seq<(nat, nat)>): set<nat> {
    set k | 0 <= k < |pairs| :: pairs[k].0
  }

  lemma {:induction false} FirstsSize(pairs: seq<(nat, nat)>)
    requires forall i, j :: 0 <= i < j < |pairs| ==> pairs[i].0 < pairs[j].0
    ensures |Firsts(pairs)| == |pairs|
  {
    if pairs != [] {
      var front, last := pairs[..|pairs| - 1], pairs[|pairs| - 1];
      assert pairs == front + [last];
      FirstsSize(front);
      assert last.0 !in Firsts(front);
      assert Firsts(pairs) == Firsts(front) + {last.0};
    }
  }

  lemma {:induction false} MatchKept(base: string, new_: string, ua: seq<(nat, nat)>, ub: seq<(nat, nat)>,
      pair: (nat, nat), edits: seq<Edit>)
    requires MatchLands(edits, ua, ub, pair, |base|) && UnitEq(base, new_, ua, ub, pair.0, pair.1)
    ensures Keeps(ua, ub, edits, pair.0)
  {
    assert |base[ua[pair.0].0..ua[pair.0].1]| == |new_[ub[pair.1].0..ub[pair.1].1]|;
    assert StaysAs(edits, ua[pair.0], ub[pair.1]);
  }

  lemma {:induction false} KeptAtLeast(base: string, new_: string, ua: seq<(nat, nat)>, ub: seq<(nat, nat)>,
      pairs: seq<(nat, nat)>, edits: seq<Edit>)
    requires KeepsLongest(base, new_, ua, ub, pairs, edits)
    ensures |pairs| <= |Kept(ua, ub, edits)|
  {
    forall k | 0 <= k < |pairs| ensures pairs[k].0 in Kept(ua, ub, edits) {
      assert MatchLands(edits, ua, ub, pairs[k], |base|);
      MatchKept(base, new_, ua, ub, pairs[k], edits);
    }
    FirstsSize(pairs);
    S.SubsetSize(Firsts(pairs), Kept(ua, ub, edits));
  }

  /** What the text diff promises of its edits. */
  ghost predicate DiffOf(base: string, new_: string, level: Level, edits: seq<Edit>) {
    Apply(base, edits) == Ok(new_) && (FollowsLongest(base, new_, level, edits) || (base == new_ && edits == []))
  }

  /** The numbers from lo up to hi. */
  function Span(lo: nat, hi: nat): (r: set<nat>)
    requires lo <= hi
    ensures |r| == hi - lo && forall i :: i in r <==> lo <= i < hi
  {
    if lo == hi then {} else Span(lo, hi - 1) + {hi - 1}
  }

  lemma {:induction false} NothingTouched(ua: seq<(nat, nat)>)
    ensures |Kept(ua, ua, [])| == |ua|
  {
    forall i: nat | i < |ua| ensures Keeps(ua, ua, [], i) { assert StaysAs([], ua[i], ua[i]); }
    assert Kept(ua, ua, []) == Span(0, |ua|);
  }

  lemma {:induction false} KeptInRange(ua: seq<(nat, nat)>, ub: seq<(nat, nat)>, es: seq<Edit>)
    ensures |Kept(ua, ub, es)| <= |ua|
  {
    S.SubsetSize(Kept(ua, ub, es), Span(0, |ua|));
  }

  /** No edits that turn the one text into the other keep more units than those of the diff. */
  lemma {:induction false} KeepsMost(base: string, new_: string, level: Level, ua: seq<(nat, nat)>,
      ub: seq<(nat, nat)>, edits: seq<Edit>, es: seq<Edit>)
    requires AreUnits(ua, base, level) && AreUnits(ub, new_, level) && DiffOf(base, new_, level, edits)
    requires Apply(base, es) == Ok(new_)
    ensures |Kept(ua, ub, es)| <= |Kept(ua, ub, edits)|
  {
    if FollowsLongest(base, new_, level, edits) {
      var va, vb, pairs :| AreUnits(va, base, level) && AreUnits(vb, new_, level) &&
        KeepsLongest(base, new_, va, vb, pairs, edits);
      UnitsUnique(ua, va, base, level);
      UnitsUnique(ub, vb, new_, level);
      KeptAtMost(base, new_, ua, ub, es, pairs);
      KeptAtLeast(base, new_, ua, ub, pairs, edits);
    } else {
      UnitsUnique(ua, ub, base, level);
      NothingTouched(ua);
      KeptInRange(ua, ub, es);
    }
  }

  // ----- characters --------------------------------------------------------

  function Deleted(es: seq<Edit>): nat {
    if es == [] then 0 else Deleted(es[..|es| - 1]) + es[|es| - 1].del
  }

  function Added(es: seq<Edit>): nat {
    if es == [] then 0 else Added(es[..|es| - 1]) + |es[|es| - 1].ins|
  }

  /** How much edits change. */
  function Cost(es: seq<Edit>): nat {
    Deleted(es) + Added(es)
  }

  lemma {:induction false} RunLength(base: string, es: seq<Edit>)
    requires Run(base, es).Progress?
    ensures |Run(base, es).out| + Deleted(es) == Run(base, es).cursor + Added(es)
  {
    if es != [] { RunLength(base, es[..|es| - 1]); }
  }

  lemma {:induction false} AppliedLength(base: string, new_: string, es: seq<Edit>)
    requires Apply(base, es) == Ok(new_)
    ensures |new_| + Deleted(es) == |base| + Added(es)
  {
    RunLength(base, es);
  }

  function Gone(es: seq<Edit>, len: nat): set<nat> {
    set i: nat | i < len && X.Deletes(es, i)
  }

  lemma {:induction false} GoneSnoc(front: seq<Edit>, e: Edit, len: nat)
    requires Valid(front + [e], len)
    ensures Gone(front + [e], len) == Gone(front, len) + Span(e.at, e.at + e.del)
    ensures Gone(front, len) !! Span(e.at, e.at + e.del)
  {
    X.LastInside(front, e, len);
    X.AllBefore(front, e, len);
    forall i: nat ensures i in Gone(front + [e], len) <==> i in Gone(front, len) || i in Span(e.at, e.at + e.del) {
      X.DeletesSnoc(front, e, i);
    }
  }

  lemma {:induction false} GoneNext(front: seq<Edit>, e: Edit, len: nat)
    requires Valid(front + [e], len)
    requires |Gone(front, len)| == Deleted(front)
    ensures |Gone(front + [e], len)| == Deleted(front + [e])
  {
    GoneSnoc(front, e, len);
    assert (front + [e])[..|front|] == front;
  }

  lemma {:induction false} GoneSize(es: seq<Edit>, len: nat)
    requires Valid(es, len)
    ensures |Gone(es, len)| == Deleted(es)
    decreases |es|
  {
    if es == [] {
      assert Gone(es, len) == {};
    } else {
      var front, e := es[..|es| - 1], es[|es| - 1];
      assert es == front + [e];
      X.LastInside(front, e, len);
      GoneSize(front, len);
      GoneNext(front, e, len);
    }
  }

  lemma {:induction false} CharsApart(chars: string, j: nat)
    requires 0 < j < |chars|
    ensures !Together(chars, Char, j)
  {}

  lemma {:induction false} CharUnit(us: seq<(nat, nat)>, chars: string, i: nat)
    requires AreUnits(us, chars, Char) && i < |us|
    ensures us[i] == (i, i + 1)
  {
    if i > 0 {
      CharUnit(us, chars, i - 1);
      assert Adjoins(us, i);
    }
    if us[i].0 + 1 < us[i].1 { CharsApart(chars, us[i].0 + 1); }
  }

  lemma {:induction false} CharUnits(us: seq<(nat, nat)>, chars: string)
    requires AreUnits(us, chars, Char)
    ensures |us| == |chars|
  {
    if us != [] { CharUnit(us, chars, |us| - 1); }
  }

  lemma {:induction false} Undeleted(es: seq<Edit>, i: nat)
    ensures Untouched(es, i, i + 1) <==> !X.Deletes(es, i)
  {}

  lemma {:induction false} CharStays(base: string, new_: string, ua: seq<(nat, nat)>, ub: seq<(nat, nat)>,
      es: seq<Edit>, i: nat)
    requires AreUnits(ua, base, Char) && AreUnits(ub, new_, Char) && Valid(es, |base|) && Apply(base, es) == Ok(new_)
    requires i < |ua| && i < |base| && ua[i] == (i, i + 1) && !X.Deletes(es, i)
    ensures Keeps(ua, ub, es, i)
  {
    var j := Image(base, es, i);
    ImageIs(base, es, i);
    ImageShows(base, es, i);
    CharUnits(ub, new_);
    CharUnit(ub, new_, j);
    Undeleted(es, i);
    assert StaysAs(es, ua[i], ub[j]);
  }

  /** A character stays exactly when it is not deleted. */
  lemma {:induction false} CharKept(base: string, new_: string, ua: seq<(nat, nat)>, ub: seq<(nat, nat)>,
      es: seq<Edit>, i: nat)
    requires AreUnits(ua, base, Char) && AreUnits(ub, new_, Char) && Apply(base, es) == Ok(new_) && i < |ua|
    ensures Keeps(ua, ub, es, i) <==> !X.Deletes(es, i)
  {
    CharUnit(ua, base, i);
    CharUnits(ua, base);
    Undeleted(es, i);
    if !X.Deletes(es, i) {
      AppliesIffValid(base, es);
      CharStays(base, new_, ua, ub, es, i);
    }
  }

  lemma {:induction false} Halves(s: set<nat>, t: set<nat>, n: nat)
    requires forall i: nat :: i in s <==> i < n && i !in t
    requires forall i :: i in t ==> i < n
    ensures |s| + |t| == n
  {
    assert s + t == Span(0, n) && s !! t;
  }

  lemma {:induction false} KeptSize(base: string, new_: string, ua: seq<(nat, nat)>, ub: seq<(nat, nat)>,
      es: seq<Edit>)
    requires AreUnits(ua, base, Char) && AreUnits(ub, new_, Char) && Apply(base, es) == Ok(new_)
    ensures |Kept(ua, ub, es)| + Deleted(es) == |base|
  {
    var kept, gone := Kept(ua, ub, es), Gone(es, |base|);
    CharUnits(ua, base);
    forall i: nat ensures i in kept <==> i < |base| && i !in gone {
      if i < |ua| { CharKept(base, new_, ua, ub, es, i); }
    }
    Halves(kept, gone, |base|);
    AppliesIffValid(base, es);
    GoneSize(es, |base|);
  }

  /** No edits that turn the one text into the other delete and insert less than those of the diff. */
  lemma {:induction false} CostsLeast(base: string, new_: string, edits: seq<Edit>, es: seq<Edit>)
    requires DiffOf(base, new_, Char, edits) && Apply(base, es) == Ok(new_)
    ensures Cost(edits) <= Cost(es)
  {
    if edits != [] {
      var ua, ub, pairs :| AreUnits(ua, base, Char) && AreUnits(ub, new_, Char) &&
        KeepsLongest(base, new_, ua, ub, pairs, edits);
      KeepsMost(base, new_, Char, ua, ub, edits, es);
      KeptSize(base, new_, ua, ub, edits);
      KeptSize(base, new_, ua, ub, es);
      AppliedLength(base, new_, edits);
      AppliedLength(base, new_, es);
    }
  }
}
