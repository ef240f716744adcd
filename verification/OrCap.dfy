/**
 * The cap of four live dots. The merge is associative exactly when no dot that
 * one grouping truncates would still rank among the four highest of the other.
 */
module OrCap {
  import opened OrElements
  import opened OrLaws
  import S = Sorting
  import T = TopSets

  /** What the live cap cuts off when two records are merged. */
  function Truncated(a: Record, b: Record): set<nat> {
    Both(a, b) - T.Top(Both(a, b), MAX_LIVE_DOTS)
  }

  /** Surviving dots of three records that merging a and b first truncates for good. */
  function Lost(a: Record, b: Record, c: Record): set<nat> {
    (Truncated(a, b) - Live(c)) * Surviving(a, b, c)
  }

  predicate AllPlain(a: Record, b: Record, c: Record) {
    Plain(a) && Plain(b) && Plain(c)
  }

  predicate CoversFit(a: Record, b: Record, c: Record) {
    |Covered(a) + Covered(b) + Covered(c)| <= MAX_TOMB_DOTS
  }

  /** Merging the third record into a merge of the first two. */
  lemma {:induction false} Grouped(a: Record, b: Record, c: Record, w: World)
    requires Ok(a, w) && Ok(b, w) && Ok(c, w) && AllPlain(a, b, c) && CoversFit(a, b, c)
    ensures var r := Merge(Merge(a, b), c);
      && Ok(r, w) && r.rtype == Max(Max(a.rtype, b.rtype), c.rtype) &&
        r.version == Max(Max(a.version, b.version), c.version)
      && Covered(r) == Covered(a) + Covered(b) + Covered(c)
      && Live(r) == T.Top(Surviving(a, b, c) - Lost(a, b, c), MAX_LIVE_DOTS)
  {
    var m := Merge(a, b);
    MergeMeaning(a, b, w);
    S.SubsetSize(Covered(a) + Covered(b), Covered(a) + Covered(b) + Covered(c));
    T.TopAll(Covered(a) + Covered(b), MAX_TOMB_DOTS);
    MergeMeaning(m, c, w);
    T.TopAll(Covered(a) + Covered(b) + Covered(c), MAX_TOMB_DOTS);
    KeptSets(Live(a) + Live(b), Covered(a) + Covered(b), Live(c), Covered(c));
  }

  lemma {:induction false} KeptSets(ab: set<nat>, covered: set<nat>, c: set<nat>, covered': set<nat>)
    ensures var top := T.Top(ab - covered, MAX_LIVE_DOTS);
      var all := ab + c - (covered + covered');
      top + c - (covered + covered') == all - ((ab - covered - top - c) * all)
  {}

  /** Fewer than four dots of a set lie above d. */
  predicate Ranks(d: nat, s: set<nat>) {
    |T.Above(s, d)| < MAX_LIVE_DOTS
  }

  /** No dot that only one grouping loses ranks among the highest dots of the other. */
  predicate LossesAgree(u: set<nat>, p: set<nat>, q: set<nat>) {
    && (forall d :: d in p - q ==> !Ranks(d, u - q))
    && (forall d :: d in q - p ==> !Ranks(d, u - p))
  }

  lemma {:induction false} SameTopIff(u: set<nat>, p: set<nat>, q: set<nat>)
    requires p <= u && q <= u
    ensures T.Top(u - p, MAX_LIVE_DOTS) == T.Top(u - q, MAX_LIVE_DOTS) <==> LossesAgree(u, p, q)
  {
    var s, t := T.Top(u - p, MAX_LIVE_DOTS), T.Top(u - q, MAX_LIVE_DOTS);
    if LossesAgree(u, p, q) {
      forall d | d in t ensures d !in p { assert d in p ==> d in p - q; }
      forall d | d in s ensures d !in q { assert d in q ==> d in q - p; }
      T.TopBetween(u - p, u - (p + q), MAX_LIVE_DOTS);
      T.TopBetween(u - q, u - (p + q), MAX_LIVE_DOTS);
    }
    if s == t {
      forall d | d in p - q ensures !Ranks(d, u - q) { assert d !in s; }
      forall d | d in q - p ensures !Ranks(d, u - p) { assert d !in t; }
    }
  }

  /** The merge of three records associates if and only if the losses of the two groupings agree. */
  lemma {:induction false} AssociatesIff(a: Record, b: Record, c: Record, w: World)
    requires Ok(a, w) && Ok(b, w) && Ok(c, w) && AllPlain(a, b, c) && CoversFit(a, b, c)
    ensures Merge(Merge(a, b), c) == Merge(a, Merge(b, c)) <==>
            LossesAgree(Surviving(a, b, c), Lost(a, b, c), Lost(b, c, a))
  {
    var l, r := Merge(Merge(a, b), c), Merge(Merge(b, c), a);
    OtherGrouping(a, b, c, w);
    Rotated(a, b, c);
    Grouped(a, b, c, w);
    Grouped(b, c, a, w);
    SameIff(l, r, w);
    SameTopIff(Surviving(a, b, c), Lost(a, b, c), Lost(b, c, a));
  }

  lemma {:induction false} NothingLost(a: Record, b: Record, c: Record)
    requires |Both(a, b)| <= MAX_LIVE_DOTS
    ensures Lost(a, b, c) == {}
  {
    T.TopAll(Both(a, b), MAX_LIVE_DOTS);
  }

  /** Groupings that truncate nothing agree. */
  lemma {:induction false} AssociatesWithinCap(a: Record, b: Record, c: Record, w: World)
    requires Ok(a, w) && Ok(b, w) && Ok(c, w) && AllPlain(a, b, c) && CoversFit(a, b, c)
    requires |Both(a, b)| <= MAX_LIVE_DOTS
    requires |Both(b, c)| <= MAX_LIVE_DOTS
    ensures Merge(Merge(a, b), c) == Merge(a, Merge(b, c))
  {
    NothingLost(a, b, c);
    NothingLost(b, c, a);
    assert LossesAgree(Surviving(a, b, c), Lost(a, b, c), Lost(b, c, a));
    AssociatesIff(a, b, c, w);
  }

  function Full(): Record {
    Record(2, 6, 0, ElementState([Entry(6, []), Entry(5, []), Entry(4, []), Entry(3, [])], []))
  }

  function Low(): Record {
    Record(2, 2, 0, ElementState([Entry(2, [])], []))
  }

  function Cover(): Record {
    Record(2, 7, 0, ElementState([], [6, 5, 4, 3]))
  }

  lemma {:induction false} FullSets()
    ensures var st := Full().state;
      Dots(st.live) == [6, 5, 4, 3] && LiveSet(st) == {6, 5, 4, 3} && CoveredSet(st) == {} && |LiveSet(st)| == 4
  {
    var st := Full().state;
    assert Dots(st.live) == [6, 5, 4, 3];
    assert LiveSet(st) == {6, 5, 4, 3};
  }

  lemma {:induction false} FullOk(w: World)
    requires w == World(d => [], v => 0)
    ensures Ok(Full(), w) && Live(Full()) == {6, 5, 4, 3} && Covered(Full()) == {}
  {
    FullSets();
    assert T.Descending([6, 5, 4, 3]);
  }

  lemma {:induction false} LowOk(w: World)
    requires w == World(d => [], v => 0)
    ensures Ok(Low(), w) && Live(Low()) == {2} && Covered(Low()) == {}
  {
    var st := Low().state;
    assert Dots(st.live) == [2];
    assert LiveSet(st) == {2} && CoveredSet(st) == {};
  }

  lemma {:induction false} CoverOk(w: World)
    requires w == World(d => [], v => 0)
    ensures Ok(Cover(), w) && Live(Cover()) == {} && Covered(Cover()) == {6, 5, 4, 3}
  {
    var st := Cover().state;
    assert LiveSet(st) == {} && CoveredSet(st) == {6, 5, 4, 3};
  }

  lemma {:induction false} LowIsCut()
    ensures T.Top({6, 5, 4, 3, 2}, MAX_LIVE_DOTS) == {6, 5, 4, 3}
  {
    var all: set<nat> := {6, 5, 4, 3, 2};
    assert T.Above(all, 2) == {6, 5, 4, 3};
    forall d: nat | 3 <= d <= 6 ensures |T.Above(all, d)| < MAX_LIVE_DOTS {
      var rest: set<nat> := {6, 5, 4};
      assert T.Above(all, d) <= rest;
      S.SubsetSize(T.Above(all, d), rest);
    }
  }

  lemma {:induction false} FewCovers(a: Record, b: Record, c: Record)
    requires Covered(a) == {} && Covered(b) == {} && Covered(c) == {6, 5, 4, 3}
    ensures CoversFit(a, b, c)
  {
    assert Covered(a) + Covered(b) + Covered(c) == Covered(c);
  }

  lemma {:induction false} LowTruncated(a: Record, b: Record)
    requires Live(a) == {6, 5, 4, 3} && Covered(a) == {} && Live(b) == {2} && Covered(b) == {}
    ensures Truncated(a, b) == {2}
  {
    LowIsCut();
    assert Both(a, b) == {6, 5, 4, 3, 2};
  }

  lemma {:induction false} NothingTruncated(b: Record, c: Record)
    requires Live(b) == {2} && Covered(b) == {} && Live(c) == {} && Covered(c) == {6, 5, 4, 3}
    ensures Truncated(b, c) == {}
  {
    T.TopAll({2}, MAX_LIVE_DOTS);
    assert Both(b, c) == {2};
  }

  lemma {:induction false} OnlyLowSurvives(a: Record, b: Record, c: Record)
    requires Live(a) == {6, 5, 4, 3} && Covered(a) == {} && Live(b) == {2} && Covered(b) == {}
    requires Live(c) == {} && Covered(c) == {6, 5, 4, 3}
    ensures Surviving(a, b, c) == {2} && Surviving(b, c, a) == {2}
  {
    assert Covered(a) + Covered(b) + Covered(c) == Covered(c) == Covered(b) + Covered(c) + Covered(a);
  }

  lemma {:induction false} OnlyLowIsLost(a: Record, b: Record, c: Record)
    requires Truncated(a, b) == {2} && Truncated(b, c) == {} && Live(c) == {}
    requires Surviving(a, b, c) == {2} && Surviving(b, c, a) == {2}
    ensures Lost(a, b, c) == {2} && Lost(b, c, a) == {}
  {}

  lemma {:induction false} GroupingDecides(a: Record, b: Record, c: Record, w: World)
    requires Ok(a, w) && Ok(b, w) && Ok(c, w) && AllPlain(a, b, c) && CoversFit(a, b, c)
    requires Surviving(a, b, c) == {2} && Lost(a, b, c) == {2} && Lost(b, c, a) == {}
    ensures Merge(Merge(a, b), c) != Merge(a, Merge(b, c))
  {
    AssociatesIff(a, b, c, w);
    var none: set<nat> := {};
    assert T.Above({2} - none, 2) == {};
    assert Ranks(2, Surviving(a, b, c) - Lost(b, c, a));
    assert 2 in Lost(a, b, c) - Lost(b, c, a);
  }

  /**
   * With a full record, a lower add and a remove of the full record's dots, the
   * grouping decides whether the add lives.
   */
  lemma {:induction false} CapBreaksAssociativity()
    ensures Merge(Merge(Full(), Low()), Cover()) != Merge(Full(), Merge(Low(), Cover()))
  {
    var w := World(d => [], v => 0);
    FullOk(w);
    LowOk(w);
    CoverOk(w);
    FewCovers(Full(), Low(), Cover());
    LowTruncated(Full(), Low());
    NothingTruncated(Low(), Cover());
    OnlyLowSurvives(Full(), Low(), Cover());
    OnlyLowIsLost(Full(), Low(), Cover());
    GroupingDecides(Full(), Low(), Cover(), w);
  }
}
