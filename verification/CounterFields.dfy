/**
 * Hash fields that hold counters keep one live entry per node. The merge then
 * stays commutative and idempotent, but it absorbs and associates only when no
 * entry that it dropped is needed again.
 */
module CounterFields {
  import opened OrElements
  import opened OrLaws
  import S = Sorting
  import T = TopSets

  method CollapsePerOrigin(live: seq<Entry>) returns (kept: seq<Entry>)
    ensures kept == Collapse(live)
  {
    kept := [];
    var seen: set<nat> := {};
    for n := 0 to |live|
      invariant kept == Collapse(live[..n])
      invariant forall o :: o in seen <==> Seen(live[..n], o)
    {
      var origin := Origin(live[n].dot);
      assert live[..n + 1] == live[..n] + [live[n]];
      SeenSnoc(live[..n], live[n]);
      if origin !in seen {
        kept, seen := kept + [live[n]], seen + {origin};
      }
    }
    assert live[..|live|] == live;
  }

  lemma {:induction false} SeenSnoc(front: seq<Entry>, last: Entry)
    ensures forall o :: Seen(front + [last], o) <==> Seen(front, o) || o == Origin(last.dot)
    ensures Collapse(front + [last]) ==
            if Seen(front, Origin(last.dot)) then Collapse(front) else Collapse(front) + [last]
  {
    var all := front + [last];
    assert all[..|front|] == front;
    forall o ensures Seen(all, o) <==> Seen(front, o) || o == Origin(last.dot) {
      if Seen(front, o) {
        var i :| 0 <= i < |front| && Origin(front[i].dot) == o;
        assert all[i] == front[i];
      }
      assert all[|front|] == last;
    }
  }

  // ----- increments --------------------------------------------------------

  lemma {:induction false} OneEntry(e: Entry)
    ensures var st := ElementState([e], []); LiveSet(st) == {e.dot} && CoveredSet(st) == {}
  {
    assert Dots([e]) == [e.dot];
  }

  /** An increment adds its dot to the prior live dots and covers nothing. */
  lemma {:induction false} IncrementSets(version: nat, prior: ElementState, w: World)
    requires Normal(prior, w.val) && version !in CoveredSet(prior)
    ensures var r := Increment(version, prior, w.val(version));
      && Normal(r.state, w.val) && Covered(r) == CoveredSet(prior)
      && Live(r) == Newest(T.Top(LiveSet(prior) + {version}, MAX_LIVE_DOTS))
  {
    var added := ElementState([Entry(version, w.val(version))], []);
    assert prior.covered + [] == prior.covered;
    OneEntry(Entry(version, w.val(version)));
    NormalizedUnion(COUNTER_FIELD, prior, added, w.val);
    T.TopAll(CoveredSet(prior), MAX_TOMB_DOTS);
    NoneCovered(LiveSet(prior), CoveredSet(prior), version);
  }

  lemma {:induction false} NoneCovered(live: set<nat>, covered: set<nat>, d: nat)
    requires live !! covered && d !in covered
    ensures live + {d} - covered == live + {d} && covered + {} == covered
  {}

  /** A fresh increment is kept, replaces its node's older entries and touches no covered dot. */
  lemma {:induction false} IncrementMeaning(version: nat, prior: ElementState, w: World)
    requires Normal(prior, w.val) && w.ttlOf(version) == 0 && version !in CoveredSet(prior)
    requires forall d :: d in LiveSet(prior) ==> d < version
    ensures var r := Increment(version, prior, w.val(version));
      && Ok(r, w) && Covered(r) == CoveredSet(prior)
      && version in Live(r) && (forall d :: d in Live(r) && Origin(d) == Origin(version) ==> d == version)
      && Live(r) <= LiveSet(prior) + {version}
  {
    IncrementSets(version, prior, w);
    FreshIsKept(LiveSet(prior), version);
    NewestOne(T.Top(LiveSet(prior) + {version}, MAX_LIVE_DOTS));
  }

  lemma {:induction false} FreshIsKept(s: set<nat>, d: nat)
    requires forall e :: e in s ==> e < d
    ensures d in Newest(T.Top(s + {d}, MAX_LIVE_DOTS))
  {
    assert T.Above(s + {d}, d) == {};
  }

  // ----- the newest dots of a set ------------------------------------------

  /** Some dot of s has the origin of d. */
  predicate Present(s: set<nat>, d: nat) {
    exists e :: e in s && Origin(e) == Origin(d)
  }

  lemma {:induction false} NewestAbove(s: set<nat>, d: nat) returns (e: nat)
    requires d in s
    ensures e in Newest(s) && Origin(e) == Origin(d) && e >= d
    decreases |T.Above(s, d)|
  {
    if Superseded(s, d) {
      var f :| f in s && Origin(f) == Origin(d) && f > d;
      assert T.Above(s, f) <= T.Above(s, d) - {f};
      S.SubsetSize(T.Above(s, f), T.Above(s, d) - {f});
      e := NewestAbove(s, f);
    } else {
      e := d;
    }
  }

  /** A set between the newest dots and the whole has the same newest dots. */
  lemma {:induction false} NewestBetween(s: set<nat>, t: set<nat>)
    requires Newest(s) <= t <= s
    ensures Newest(t) == Newest(s)
  {
    forall d | d in Newest(s) ensures d in Newest(t) {
      assert !Superseded(s, d);
    }
    forall d | d in Newest(t) ensures d in Newest(s) {
      var e := NewestAbove(s, d);
      assert e in t && !Superseded(t, d);
    }
  }

  // ----- absorption --------------------------------------------------------

  /** The dots a merge of a and b has covered. */
  function Covers(a: Record, b: Record): set<nat> {
    T.Top(Covered(a) + Covered(b), MAX_TOMB_DOTS)
  }

  /**
   * Of the dots of a that the cap cuts, one that ranks once collapsing has made
   * room, and whose node has no entry left.
   */
  predicate Returns(a: set<nat>, top: set<nat>) {
    exists d :: d in a - top && |T.Above(a + Newest(top), d)| < MAX_LIVE_DOTS && !Present(Newest(top), d)
  }

  lemma {:induction false} TopIsHigher(u: set<nat>, n: nat, x: nat, d: nat)
    requires x in T.Top(u, n) && d in u && d !in T.Top(u, n)
    ensures d < x
  {
    if d > x {
      assert T.Above(u, d) <= T.Above(u, x);
      S.SubsetSize(T.Above(u, d), T.Above(u, x));
    }
  }

  lemma {:induction false} KeptStays(a: set<nat>, b: set<nat>, y: nat)
    requires y in Newest(T.Top(a + b, MAX_LIVE_DOTS))
    ensures y in T.Top(a + Newest(T.Top(a + b, MAX_LIVE_DOTS)), MAX_LIVE_DOTS)
  {
    T.AboveMonotone(a + Newest(T.Top(a + b, MAX_LIVE_DOTS)), a + b, y);
  }

  lemma {:induction false} KeptStaysNewest(a: set<nat>, b: set<nat>, y: nat)
    requires y in Newest(T.Top(a + b, MAX_LIVE_DOTS))
    ensures y in Newest(T.Top(a + Newest(T.Top(a + b, MAX_LIVE_DOTS)), MAX_LIVE_DOTS))
  {
    var u := a + b;
    var top := T.Top(u, MAX_LIVE_DOTS);
    var again := T.Top(a + Newest(top), MAX_LIVE_DOTS);
    KeptStays(a, b, y);
    if Superseded(again, y) {
      var e :| e in again && Origin(e) == Origin(y) && e > y;
      if e !in top { TopIsHigher(u, MAX_LIVE_DOTS, y, e); }
    }
  }

  lemma {:induction false} OnlyKeptStay(a: set<nat>, b: set<nat>, z: nat)
    requires !Returns(a, T.Top(a + b, MAX_LIVE_DOTS))
    requires z in Newest(T.Top(a + Newest(T.Top(a + b, MAX_LIVE_DOTS)), MAX_LIVE_DOTS))
    ensures z in Newest(T.Top(a + b, MAX_LIVE_DOTS))
  {
    var u := a + b;
    var top := T.Top(u, MAX_LIVE_DOTS);
    if z in top {
      var e := NewestAbove(top, z);
      KeptStays(a, b, e);
    } else {
      assert z in a - top;
      assert Present(Newest(top), z);
      var e :| e in Newest(top) && Origin(e) == Origin(z);
      KeptStays(a, b, e);
      TopIsHigher(u, MAX_LIVE_DOTS, e, z);
    }
  }

  lemma {:induction false} RepeatedIff(a: set<nat>, b: set<nat>)
    ensures var top := T.Top(a + b, MAX_LIVE_DOTS);
      Newest(T.Top(a + Newest(top), MAX_LIVE_DOTS)) == Newest(top) <==> !Returns(a, top)
  {
    var top := T.Top(a + b, MAX_LIVE_DOTS);
    var again := T.Top(a + Newest(top), MAX_LIVE_DOTS);
    if Returns(a, top) {
      var d :| d in a - top && |T.Above(a + Newest(top), d)| < MAX_LIVE_DOTS && !Present(Newest(top), d);
      var e := NewestAbove(again, d);
      assert e !in Newest(top);
    } else {
      forall y | y in Newest(top) ensures y in Newest(again) { KeptStaysNewest(a, b, y); }
      forall z | z in Newest(again) ensures z in Newest(top) { OnlyKeptStay(a, b, z); }
    }
  }

  /** What MergeMeaning says of a merge r of a and b. */
  ghost predicate Joins(r: Record, a: Record, b: Record, w: World) {
    && Ok(r, w) && r.rtype == Max(a.rtype, b.rtype) && r.version == Max(a.version, b.version)
    && Covered(r) == Covers(a, b) && Live(r) == Kept(r.rtype, Live(a) + Live(b) - Covered(r))
  }

  lemma {:induction false} MergeJoins(a: Record, b: Record, w: World)
    requires Ok(a, w) && Ok(b, w)
    ensures Joins(Merge(a, b), a, b, w)
  {
    MergeMeaning(a, b, w);
  }

  lemma {:induction false} CoversAgain(a: Record, b: Record, m: Record)
    requires Covered(m) == Covers(a, b)
    ensures Covers(a, m) == Covers(a, b)
  {
    T.TopUnion(Covered(a) + Covered(b), Covered(a), MAX_TOMB_DOTS);
    assert Covered(a) + Covered(b) + Covered(a) == Covered(a) + Covered(b);
    assert Covered(a) + Covers(a, b) == Covers(a, b) + Covered(a);
  }

  lemma {:induction false} Minus(x: set<nat>, y: set<nat>, c: set<nat>, m: set<nat>)
    requires m !! c
    ensures (x - c) + (y - c) == x + y - c && (x - c) + m == x + m - c
  {}

  lemma {:induction false} JoinedAgainIff(a: Record, b: Record, m: Record, n: Record, w: World)
    requires Joins(m, a, b, w) && Joins(n, a, m, w) && m.rtype == COUNTER_FIELD && a.rtype <= COUNTER_FIELD
    ensures n == m <==> !Returns(Live(a) - Covers(a, b), T.Top(Live(a) + Live(b) - Covers(a, b), MAX_LIVE_DOTS))
  {
    var c := Covers(a, b);
    CoversAgain(a, b, m);
    Minus(Live(a), Live(b), c, Live(m));
    RepeatedIff(Live(a) - c, Live(b) - c);
    SameIff(n, m, w);
  }

  /**
   * Merging a record again into a merge that already has it changes nothing if and
   * only if none of its cut dots returns.
   */
  lemma {:induction false} AbsorbsIff(a: Record, b: Record, w: World)
    requires Ok(a, w) && Ok(b, w) && (a.rtype == COUNTER_FIELD || b.rtype == COUNTER_FIELD)
    ensures Merge(a, Merge(a, b)) == Merge(a, b) <==>
            !Returns(Live(a) - Covers(a, b), T.Top(Live(a) + Live(b) - Covers(a, b), MAX_LIVE_DOTS))
  {
    MergeJoins(a, b, w);
    MergeJoins(a, Merge(a, b), w);
    JoinedAgainIff(a, b, Merge(a, b), Merge(a, Merge(a, b)), w);
  }

  // ----- associativity -----------------------------------------------------

  /** Dots that merging a and b first drops for a newer one of the same node, and that no record covers. */
  function Dropped(a: Record, b: Record, c: Record): set<nat> {
    if Max(a.rtype, b.rtype) == COUNTER_FIELD
    then (Both(a, b) - Newest(Both(a, b)) - Live(c)) * Surviving(a, b, c)
    else {}
  }

  /** Every dot that only one grouping drops has a newer one of its node in the other. */
  predicate DropsAgree(all: set<nat>, p: set<nat>, q: set<nat>) {
    && (forall d :: d in p - q ==> Superseded(all - q, d))
    && (forall d :: d in q - p ==> Superseded(all - p, d))
  }

  lemma {:induction false} SameNewestIff(all: set<nat>, p: set<nat>, q: set<nat>)
    requires p <= all && q <= all
    ensures Newest(all - p) == Newest(all - q) <==> DropsAgree(all, p, q)
  {
    var s, t := Newest(all - p), Newest(all - q);
    if DropsAgree(all, p, q) {
      forall d | d in t ensures d !in p { assert d in p ==> d in p - q; }
      forall d | d in s ensures d !in q { assert d in q ==> d in q - p; }
      NewestBetween(all - p, all - (p + q));
      NewestBetween(all - q, all - (p + q));
    }
    if s == t {
      forall d | d in p - q ensures Superseded(all - q, d) { assert d !in s; }
      forall d | d in q - p ensures Superseded(all - p, d) { assert d !in t; }
    }
  }

  lemma {:induction false} DroppedSets(x: set<nat>, covered: set<nat>, c: set<nat>, covered': set<nat>)
    ensures var kept := Newest(x - covered);
      var all := x + c - (covered + covered');
      kept + c - (covered + covered') == all - ((x - covered - kept - c) * all)
  {}

  lemma {:induction false} NothingDropped(x: set<nat>, covered: set<nat>, c: set<nat>, covered': set<nat>)
    ensures x - covered + c - (covered + covered') == x + c - (covered + covered')
  {}

  /** No merge of the three, a and b first, has more dots than a record holds. */
  predicate Fit(a: Record, b: Record, c: Record) {
    && |Covered(a) + Covered(b) + Covered(c)| <= MAX_TOMB_DOTS
    && |Both(a, b)| <= MAX_LIVE_DOTS && |Surviving(a, b, c)| <= MAX_LIVE_DOTS
  }

  lemma {:induction false} FirstMerge(a: Record, b: Record, c: Record, m: Record, w: World)
    requires Joins(m, a, b, w) && Fit(a, b, c)
    ensures Covered(m) == Covered(a) + Covered(b)
    ensures Live(m) == if m.rtype == COUNTER_FIELD then Newest(Both(a, b)) else Both(a, b)
  {
    S.SubsetSize(Covered(a) + Covered(b), Covered(a) + Covered(b) + Covered(c));
    T.TopAll(Covered(a) + Covered(b), MAX_TOMB_DOTS);
    T.TopAll(Both(a, b), MAX_LIVE_DOTS);
  }

  lemma {:induction false} Candidates(a: Record, b: Record, c: Record, m: Record, w: World)
    requires Joins(m, a, b, w) && Fit(a, b, c)
    ensures Live(m) + Live(c) - (Covered(a) + Covered(b) + Covered(c)) == Surviving(a, b, c) - Dropped(a, b, c)
  {
    FirstMerge(a, b, c, m, w);
    DroppedSets(Live(a) + Live(b), Covered(a) + Covered(b), Live(c), Covered(c));
    NothingDropped(Live(a) + Live(b), Covered(a) + Covered(b), Live(c), Covered(c));
  }

  /** What a merge r of c into a merge of a and b holds. */
  ghost predicate Groups(r: Record, a: Record, b: Record, c: Record, w: World) {
    && Ok(r, w) && r.version == Max(Max(a.version, b.version), c.version) && r.rtype == COUNTER_FIELD
    && Covered(r) == Covered(a) + Covered(b) + Covered(c)
    && Live(r) == Newest(Surviving(a, b, c) - Dropped(a, b, c))
  }

  lemma {:induction false} Grouped(a: Record, b: Record, c: Record, m: Record, r: Record, w: World)
    requires Joins(m, a, b, w) && Joins(r, m, c, w) && Fit(a, b, c)
    requires r.rtype == COUNTER_FIELD
    ensures Groups(r, a, b, c, w)
  {
    var left := Surviving(a, b, c) - Dropped(a, b, c);
    FirstMerge(a, b, c, m, w);
    Candidates(a, b, c, m, w);
    T.TopAll(Covered(a) + Covered(b) + Covered(c), MAX_TOMB_DOTS);
    S.SubsetSize(left, Surviving(a, b, c));
    T.TopAll(left, MAX_LIVE_DOTS);
  }

  lemma {:induction false} MergeGroups(a: Record, b: Record, c: Record, w: World)
    requires Ok(a, w) && Ok(b, w) && Ok(c, w) && Fit(a, b, c) && Max(Max(a.rtype, b.rtype), c.rtype) == COUNTER_FIELD
    ensures Groups(Merge(Merge(a, b), c), a, b, c, w)
  {
    MergeJoins(a, b, w);
    MergeJoins(Merge(a, b), c, w);
    Grouped(a, b, c, Merge(a, b), Merge(Merge(a, b), c), w);
  }

  lemma {:induction false} GroupsAgreeIff(l: Record, r: Record, a: Record, b: Record, c: Record, w: World)
    requires Groups(l, a, b, c, w) && Groups(r, b, c, a, w)
    ensures l == r <==> DropsAgree(Surviving(a, b, c), Dropped(a, b, c), Dropped(b, c, a))
  {
    Rotated(a, b, c);
    SameNewestIff(Surviving(a, b, c), Dropped(a, b, c), Dropped(b, c, a));
    SameIff(l, r, w);
  }

  /**
   * Within the caps, counter fields associate if and only if every dot that only
   * one grouping drops has a newer one in the other.
   */
  lemma {:induction false} AssociatesIff(a: Record, b: Record, c: Record, w: World)
    requires Ok(a, w) && Ok(b, w) && Ok(c, w) && Fit(a, b, c) && Fit(b, c, a)
    requires Max(Max(a.rtype, b.rtype), c.rtype) == COUNTER_FIELD
    ensures Merge(Merge(a, b), c) == Merge(a, Merge(b, c)) <==>
            DropsAgree(Surviving(a, b, c), Dropped(a, b, c), Dropped(b, c, a))
  {
    OtherGrouping(a, b, c, w);
    MergeGroups(a, b, c, w);
    MergeGroups(b, c, a, w);
    GroupsAgreeIff(Merge(Merge(a, b), c), Merge(Merge(b, c), a), a, b, c, w);
  }

  // ----- the two failures --------------------------------------------------

  /** Two entries of node 1, the second newer, and entries of nodes 2, 3 and 4. */
  const OLD: nat := 0x1_0001
  const NEW: nat := 0x2_0001

  /** The version of a later removal by node 2. */
  const GONE: nat := 0x3_0002

  function Field(version: nat, live: seq<nat>, covered: seq<nat>): Record {
    Record(COUNTER_FIELD, version, 0,
      ElementState(seq(|live|, i requires 0 <= i < |live| => Entry(live[i], [])), covered))
  }

  lemma {:induction false} FieldSets(version: nat, live: seq<nat>, covered: seq<nat>)
    ensures Live(Field(version, live, covered)) == T.Elements(live) &&
      Covered(Field(version, live, covered)) == T.Elements(covered)
  {
    assert Dots(Field(version, live, covered).state.live) == live;
  }

  lemma {:induction false} FieldOk(version: nat, live: seq<nat>, covered: seq<nat>, w: World)
    requires w == World(d => [], v => 0)
    requires T.Descending(live) && T.Descending(covered) && |T.Elements(live)| <= 4 && |T.Elements(covered)| <= 4
    requires T.Elements(live) !! T.Elements(covered) && OnePerOrigin(T.Elements(live))
    ensures Ok(Field(version, live, covered), w)
  {
    assert Dots(Field(version, live, covered).state.live) == live;
  }

  lemma {:induction false} TopOfFive()
    ensures T.Top({NEW, OLD, 4, 3, 2}, MAX_LIVE_DOTS) == {NEW, OLD, 4, 3}
  {
    var all: set<nat> := {NEW, OLD, 4, 3, 2};
    assert T.Above(all, 2) == {NEW, OLD, 4, 3};
    forall d | d in all && d != 2 ensures |T.Above(all, d)| < MAX_LIVE_DOTS {
      var rest: set<nat> := {NEW, OLD, 4};
      assert T.Above(all, d) <= rest;
      S.SubsetSize(T.Above(all, d), rest);
    }
  }

  lemma {:induction false} NewestOfFour()
    ensures Newest({NEW, OLD, 4, 3}) == {NEW, 4, 3}
  {
    var all: set<nat> := {NEW, OLD, 4, 3};
    assert Origin(NEW) == 1 && Origin(OLD) == 1 && Origin(4) == 4 && Origin(3) == 3;
    assert NEW in all && NEW > OLD;
    assert Superseded(all, OLD);
  }

  lemma {:induction false} LowestReturns()
    ensures Returns({NEW, 4, 3, 2}, T.Top({NEW, OLD, 4, 3, 2}, MAX_LIVE_DOTS))
  {
    TopOfFive();
    NewestOfFour();
    var a: set<nat> := {NEW, 4, 3, 2};
    var top: set<nat> := {NEW, OLD, 4, 3};
    assert Newest(top) == {NEW, 4, 3};
    assert T.Above(a + Newest(top), 2) == {NEW, 4, 3};
    assert Origin(NEW) == 1 && Origin(4) == 4 && Origin(3) == 3 && Origin(2) == 2;
    assert 2 in a - top && !Present(Newest(top), 2);
  }

  lemma {:induction false} FullField(w: World)
    requires w == World(d => [], v => 0)
    ensures var a := Field(NEW, [NEW, 4, 3, 2], []); Ok(a, w) && Live(a) == {NEW, 4, 3, 2} && Covered(a) == {}
  {
    FieldSets(NEW, [NEW, 4, 3, 2], []);
    assert T.Elements([NEW, 4, 3, 2]) == {NEW, 4, 3, 2};
    assert Origin(NEW) == 1 && Origin(4) == 4 && Origin(3) == 3 && Origin(2) == 2;
    assert OnePerOrigin({NEW, 4, 3, 2});
    FieldOk(NEW, [NEW, 4, 3, 2], [], w);
  }

  lemma {:induction false} SingleField(d: nat, w: World)
    requires w == World(d => [], v => 0)
    ensures var r := Field(d, [d], []); Ok(r, w) && Live(r) == {d} && Covered(r) == {}
  {
    FieldSets(d, [d], []);
    assert T.Elements([d]) == {d};
    FieldOk(d, [d], [], w);
  }

  lemma {:induction false} RemovalField(d: nat, w: World)
    requires w == World(d => [], v => 0)
    ensures var r := Field(GONE, [], [d]); Ok(r, w) && Live(r) == {} && Covered(r) == {d}
  {
    FieldSets(GONE, [], [d]);
    assert T.Elements([d]) == {d};
    FieldOk(GONE, [], [d], w);
  }

  lemma {:induction false} AbsorptionFails(a: Record, b: Record, w: World)
    requires Ok(a, w) && Ok(b, w) && a.rtype == COUNTER_FIELD
    requires Live(a) == {NEW, 4, 3, 2} && Live(b) == {OLD} && Covered(a) == {} && Covered(b) == {}
    ensures Merge(a, Merge(a, b)) != Merge(a, b)
  {
    NothingCovered(a, b);
    LowestReturns();
    AbsorbsIff(a, b, w);
  }

  lemma {:induction false} NothingCovered(a: Record, b: Record)
    requires Live(a) == {NEW, 4, 3, 2} && Live(b) == {OLD} && Covered(a) == {} && Covered(b) == {}
    ensures Live(a) - Covers(a, b) == {NEW, 4, 3, 2} && Live(a) + Live(b) - Covers(a, b) == {NEW, OLD, 4, 3, 2}
  {
    T.TopAll(Covered(a) + Covered(b), MAX_TOMB_DOTS);
  }

  /** Merging the same record twice is not merging it once: an entry that the cap cut comes back. */
  lemma {:induction false} CapBreaksAbsorption()
    ensures var a, b := Field(NEW, [NEW, 4, 3, 2], []), Field(OLD, [OLD], []); Merge(a, Merge(a, b)) != Merge(a, b)
  {
    var w := World(d => [], v => 0);
    FullField(w);
    SingleField(OLD, w);
    AbsorptionFails(Field(NEW, [NEW, 4, 3, 2], []), Field(OLD, [OLD], []), w);
  }

  lemma {:induction false} OldIsDropped(a: Record, b: Record, c: Record)
    requires Live(a) == {NEW} && Live(b) == {OLD} && Live(c) == {} && a.rtype == b.rtype == COUNTER_FIELD
    requires Covered(a) == {} && Covered(b) == {} && Covered(c) == {NEW}
    ensures Surviving(a, b, c) == {OLD} && Both(a, b) == {NEW, OLD} && Dropped(a, b, c) == {OLD} && Fit(a, b, c)
  {
    var both: set<nat> := {NEW, OLD};
    assert Origin(NEW) == Origin(OLD) && NEW > OLD && NEW in both;
    assert Superseded(both, OLD);
    assert Covered(a) + Covered(b) + Covered(c) == {NEW};
  }

  lemma {:induction false} OldIsKept(a: Record, b: Record, c: Record)
    requires Live(a) == {NEW} && Live(b) == {OLD} && Live(c) == {}
    requires Covered(a) == {} && Covered(b) == {} && Covered(c) == {NEW}
    ensures Surviving(b, c, a) == {OLD} && Both(b, c) == {OLD} && Dropped(b, c, a) == {} && Fit(b, c, a)
  {
    NewestSelf({OLD});
    assert Covered(b) + Covered(c) + Covered(a) == {NEW};
  }

  lemma {:induction false} AssociationFails(a: Record, b: Record, c: Record, w: World)
    requires Ok(a, w) && Ok(b, w) && Ok(c, w) && a.rtype == b.rtype == c.rtype == COUNTER_FIELD
    requires Live(a) == {NEW} && Live(b) == {OLD} && Live(c) == {}
    requires Covered(a) == {} && Covered(b) == {} && Covered(c) == {NEW}
    ensures Merge(Merge(a, b), c) != Merge(a, Merge(b, c))
  {
    OldIsDropped(a, b, c);
    OldIsKept(a, b, c);
    AssociatesIff(a, b, c, w);
    OldDecides();
  }

  lemma {:induction false} OldDecides()
    ensures !DropsAgree({OLD}, {OLD}, {})
  {
    var none: set<nat> := {};
    assert OLD in {OLD} - none && !Superseded({OLD} - none, OLD);
  }

  /** A stale entry of a removed counter is gone or back, depending on when the removal arrives. */
  lemma {:induction false} RemovalBreaksAssociativity()
    ensures var a, b, c := Field(NEW, [NEW], []), Field(OLD, [OLD], []), Field(GONE, [], [NEW]);
      Merge(Merge(a, b), c) != Merge(a, Merge(b, c))
  {
    var w := World(d => [], v => 0);
    SingleField(NEW, w);
    SingleField(OLD, w);
    RemovalField(NEW, w);
    AssociationFails(Field(NEW, [NEW], []), Field(OLD, [OLD], []), Field(GONE, [], [NEW]), w);
  }
}
