/**
 * Observed-remove element records: live add-dots with their values, the dots
 * that removes have covered, and the merge that joins two records of one key.
 *
 * A dot (hlc, origin) is written as one number, hlc * 65536 + origin, which
 * orders dots as the pair does; record versions likewise.
 */
module OrElements {
  import S = Sorting
  import T = TopSets

  const MAX_LIVE_DOTS: nat := 4
  const MAX_TOMB_DOTS: nat := 255

  /** The record type of hash fields that hold counters; the highest type there is. */
  const COUNTER_FIELD: nat := 8

  type Value = seq<nat>

  /** The number of a dot, or of a record version. */
  function Stamp(hlc: nat, origin: nat): nat {
    hlc * 0x1_0000 + origin
  }

  /** The node that wrote a dot. */
  function Origin(dot: nat): nat {
    dot % 0x1_0000
  }

  /** Stamps order like (hlc, origin) pairs and keep the origin. */
  lemma {:induction false} StampOrder(hlc: nat, origin: nat, hlc': nat, origin': nat)
    requires origin < 0x1_0000 && origin' < 0x1_0000
    ensures Stamp(hlc, origin) < Stamp(hlc', origin') <==> hlc < hlc' || (hlc == hlc' && origin < origin')
    ensures Origin(Stamp(hlc, origin)) == origin
  {
    if hlc < hlc' { assert hlc * 0x1_0000 + 0x1_0000 <= hlc' * 0x1_0000; }
    if hlc' < hlc { assert hlc' * 0x1_0000 + 0x1_0000 <= hlc * 0x1_0000; }
  }

  datatype Entry = Entry(dot: nat, value: Value)

  datatype ElementState = ElementState(live: seq<Entry>, covered: seq<nat>)

  datatype Record = Record(rtype: nat, version: nat, ttl: nat, state: ElementState)

  datatype Outcome = KeepLocal | TakeIncoming | Merged(record: Record)

  // ----- normal form -------------------------------------------------------

  function Dots(live: seq<Entry>): (r: seq<nat>)
    ensures |r| == |live|
  {
    seq(|live|, i requires 0 <= i < |live| => live[i].dot)
  }

  function DotOf(e: Entry): nat { e.dot }

  function Itself(d: nat): nat { d }

  predicate DotAbove(x: Entry, y: Entry) { x.dot >= y.dot }

  predicate Above(x: nat, y: nat) { x >= y }

  /** Drop an element whose key equals that of the one kept just before it. */
  function Dedup<X>(s: seq<X>, key: X -> nat): seq<X> {
    if s == [] then []
    else
      var kept, last := Dedup(s[..|s| - 1], key), s[|s| - 1];
      if kept != [] && key(kept[|kept| - 1]) == key(last) then kept else kept + [last]
  }

  function Retain(live: seq<Entry>, covered: seq<nat>): seq<Entry> {
    if live == [] then []
    else
      var rest := Retain(live[..|live| - 1], covered);
      var last := live[|live| - 1];
      if last.dot in covered then rest else rest + [last]
  }

  function Truncate<X>(s: seq<X>, n: nat): seq<X> {
    if |s| <= n then s else s[..n]
  }

  function Normalize(st: ElementState): ElementState {
    var covered := Truncate(Dedup(S.Sort(st.covered, Above), Itself), MAX_TOMB_DOTS);
    var live := Dedup(S.Sort(st.live, DotAbove), DotOf);
    ElementState(Truncate(Retain(live, covered), MAX_LIVE_DOTS), covered)
  }

  // ----- writes ------------------------------------------------------------

  /** The record that `encode_element` writes. */
  function Written(rtype: nat, version: nat, ttl: nat, st: ElementState): Record {
    Record(rtype, version, ttl, Normalize(st))
  }

  function Add(rtype: nat, version: nat, dot: nat, value: Value, ttl: nat): Record {
    Written(rtype, version, ttl, ElementState([Entry(dot, value)], []))
  }

  /** Overwrite: cover the observed dots and add a fresh one in one record. */
  function Set(rtype: nat, version: nat, value: Value, observed: seq<nat>): Record {
    Written(rtype, version, 0, ElementState([Entry(version, value)], observed))
  }

  function Remove(rtype: nat, version: nat, observed: seq<nat>): Record {
    Written(rtype, version, 0, ElementState([], observed))
  }

  /** Increment of a counter field: a fresh entry on top of the prior state, one entry per node. */
  function Increment(version: nat, prior: ElementState, mine: Value): Record {
    var st := Normalize(ElementState(prior.live + [Entry(version, mine)], prior.covered));
    Written(COUNTER_FIELD, version, 0, Collapsed(COUNTER_FIELD, st))
  }

  // ----- merge -------------------------------------------------------------

  function Max(a: nat, b: nat): nat {
    if a >= b then a else b
  }

  /** Some entry was written by the origin. */
  predicate Seen(live: seq<Entry>, origin: nat) {
    exists i :: 0 <= i < |live| && Origin(live[i].dot) == origin
  }

  /** Keep only the first entry of each origin. */
  function Collapse(live: seq<Entry>): seq<Entry> {
    if live == [] then []
    else
      var front, last := live[..|live| - 1], live[|live| - 1];
      if Seen(front, Origin(last.dot)) then Collapse(front) else Collapse(front) + [last]
  }

  /** Counter fields keep one entry per node. */
  function Collapsed(rtype: nat, st: ElementState): ElementState {
    if rtype == COUNTER_FIELD then ElementState(Collapse(st.live), st.covered) else st
  }

  function Joined(l: Record, i: Record): Record {
    var rtype := Max(l.rtype, i.rtype);
    var joined := Normalize(ElementState(l.state.live + i.state.live, l.state.covered + i.state.covered));
    var ttl := if i.version > l.version then i.ttl else l.ttl;
    Written(rtype, Max(l.version, i.version), ttl, Collapsed(rtype, joined))
  }

  function MergeValues(local: Record, incoming: Record): Outcome {
    var merged := Joined(local, incoming);
    if merged == local then KeepLocal
    else if merged == incoming then TakeIncoming
    else Merged(merged)
  }

  function Resolve(local: Record, incoming: Record, outcome: Outcome): Record {
    match outcome
    case KeepLocal => local
    case TakeIncoming => incoming
    case Merged(r) => r
  }

  /** What a node stores after merging `incoming` into `local`. */
  function Merge(local: Record, incoming: Record): Record {
    Resolve(local, incoming, MergeValues(local, incoming))
  }

  // ----- what a list pipeline keeps ----------------------------------------

  predicate Falling(s: seq<nat>) {
    forall i, j :: 0 <= i < j < |s| ==> s[i] >= s[j]
  }

  lemma {:induction false} DedupSnoc(front: seq<nat>, last: nat)
    ensures var kept := Dedup(front, Itself);
      Dedup(front + [last], Itself) == if kept != [] && kept[|kept| - 1] == last then kept else kept + [last]
  {
    assert (front + [last])[..|front|] == front;
  }

  lemma {:induction false} AppendBelow(kept: seq<nat>, last: nat)
    requires T.Descending(kept) && (kept == [] || kept[|kept| - 1] > last)
    ensures T.Descending(kept + [last]) && T.Elements(kept + [last]) == T.Elements(kept) + {last}
  {}

  /** The kept list has the elements of s, falls strictly, and ends where s does. */
  predicate Keeps(kept: seq<nat>, s: seq<nat>) {
    && T.Descending(kept) && T.Elements(kept) == T.Elements(s)
    && (s == [] ==> kept == []) && (s != [] ==> kept != [] && kept[|kept| - 1] == s[|s| - 1])
  }

  lemma {:induction false} KeepsSnoc(kept: seq<nat>, front: seq<nat>, last: nat)
    requires Keeps(kept, front) && (front != [] ==> front[|front| - 1] >= last)
    ensures Keeps(if kept != [] && kept[|kept| - 1] == last then kept else kept + [last], front + [last])
  {
    assert T.Elements(front + [last]) == T.Elements(front) + {last};
    if kept == [] || kept[|kept| - 1] != last { AppendBelow(kept, last); }
  }

  lemma {:induction false} FallingFront(front: seq<nat>, last: nat)
    requires Falling(front + [last])
    ensures Falling(front) && (front != [] ==> front[|front| - 1] >= last)
  {
    var s := front + [last];
    forall i, j | 0 <= i < j < |front| ensures front[i] >= front[j] { assert s[i] >= s[j]; }
    if front != [] { assert s[|front| - 1] >= s[|front|]; }
  }

  lemma {:induction false} DedupStep(front: seq<nat>, last: nat)
    requires Falling(front + [last]) && Keeps(Dedup(front, Itself), front)
    ensures Keeps(Dedup(front + [last], Itself), front + [last])
  {
    FallingFront(front, last);
    DedupSnoc(front, last);
    KeepsSnoc(Dedup(front, Itself), front, last);
  }

  lemma {:induction false} DedupFalling(s: seq<nat>)
    requires Falling(s)
    ensures Keeps(Dedup(s, Itself), s)
  {
    if s != [] {
      var front, last := s[..|s| - 1], s[|s| - 1];
      assert s == front + [last];
      FallingFront(front, last);
      DedupFalling(front);
      DedupStep(front, last);
    }
  }

  lemma {:induction false} DedupDots(s: seq<Entry>)
    ensures Dots(Dedup(s, DotOf)) == Dedup(Dots(s), Itself)
    ensures forall e :: e in Dedup(s, DotOf) ==> e in s
  {
    if s != [] {
      var front, last := s[..|s| - 1], s[|s| - 1];
      DedupDots(front);
      assert Dots(s)[..|s| - 1] == Dots(front) && Dots(s)[|s| - 1] == last.dot;
      var kept := Dedup(front, DotOf);
      assert Dots(kept + [last]) == Dots(kept) + [last.dot];
      assert kept != [] ==> Dots(kept)[|kept| - 1] == kept[|kept| - 1].dot;
    }
  }

  lemma {:induction false} RetainDots(live: seq<Entry>, covered: seq<nat>)
    requires T.Descending(Dots(live))
    ensures var r := Retain(live, covered);
      && T.Descending(Dots(r)) && T.Elements(Dots(r)) == T.Elements(Dots(live)) - T.Elements(covered)
      && forall e :: e in r ==> e in live
  {
    if live != [] {
      var front, last := live[..|live| - 1], live[|live| - 1];
      assert Dots(live) == Dots(front) + [last.dot];
      assert T.Descending(Dots(front)) by {
        forall i, j | 0 <= i < j < |front| ensures Dots(front)[i] > Dots(front)[j] {
          assert Dots(front)[i] == Dots(live)[i] && Dots(front)[j] == Dots(live)[j];
        }
      }
      RetainDots(front, covered);
      var rest := Retain(front, covered);
      assert T.Elements(Dots(live)) == T.Elements(Dots(front)) + {last.dot};
      assert Dots(rest + [last]) == Dots(rest) + [last.dot];
      if last.dot !in covered {
        AppendLower(Dots(rest), Dots(front), last.dot);
      }
    }
  }

  lemma {:induction false} AppendLower(rest: seq<nat>, front: seq<nat>, last: nat)
    requires T.Descending(rest) && T.Elements(rest) <= T.Elements(front) && T.Descending(front + [last])
    ensures T.Descending(rest + [last]) && T.Elements(rest + [last]) == T.Elements(rest) + {last}
  {
    var all := front + [last];
    forall x | x in rest ensures x > last {
      assert x in T.Elements(front);
      var i :| 0 <= i < |front| && front[i] == x;
      assert all[i] == x && all[|front|] == last;
    }
    var r := rest + [last];
    forall i, j | 0 <= i < j < |r| ensures r[i] > r[j] {
      if j == |rest| { assert r[i] in rest; }
    }
    assert T.Elements(r) == T.Elements(rest) + {last};
  }

  lemma {:induction false} SortFalling(s: seq<nat>)
    ensures var r := S.Sort(s, Above); Falling(r) && T.Elements(r) == T.Elements(s)
  {
    var le := Above;
    S.SortSorted(s, le);
    S.SameElements(s, S.Sort(s, le));
  }

  lemma {:induction false} SortEntries(s: seq<Entry>)
    ensures var r := S.Sort(s, DotAbove);
      Falling(Dots(r)) && T.Elements(Dots(r)) == T.Elements(Dots(s)) && forall e :: e in r ==> e in s
  {
    var le := DotAbove;
    var r := S.Sort(s, le);
    S.SortSorted(s, le);
    S.SameElements(s, r);
    SameDots(s, r);
  }

  lemma {:induction false} SameDots(s: seq<Entry>, t: seq<Entry>)
    requires forall e :: e in s <==> e in t
    ensures T.Elements(Dots(s)) == T.Elements(Dots(t))
  {
    DotsIn(s);
    DotsIn(t);
  }

  lemma {:induction false} DotsIn(s: seq<Entry>)
    ensures forall d :: d in T.Elements(Dots(s)) <==> exists e :: e in s && e.dot == d
  {
    forall d ensures d in T.Elements(Dots(s)) <==> exists e :: e in s && e.dot == d {
      if d in Dots(s) {
        var i :| 0 <= i < |s| && Dots(s)[i] == d;
        assert s[i] in s && s[i].dot == d;
      }
      if e :| e in s && e.dot == d {
        var i :| 0 <= i < |s| && s[i] == e;
        assert Dots(s)[i] == d;
      }
    }
  }

  // ----- normal states as sets ---------------------------------------------

  function LiveSet(st: ElementState): set<nat> {
    T.Elements(Dots(st.live))
  }

  function CoveredSet(st: ElementState): set<nat> {
    T.Elements(st.covered)
  }

  /** Each dot carries the value it was added with. */
  ghost predicate Consistent(live: seq<Entry>, val: nat -> Value) {
    forall e :: e in live ==> e.value == val(e.dot)
  }

  ghost predicate Normal(st: ElementState, val: nat -> Value) {
    && T.Descending(Dots(st.live)) && T.Descending(st.covered)
    && Consistent(st.live, val)
    && |LiveSet(st)| <= MAX_LIVE_DOTS && |CoveredSet(st)| <= MAX_TOMB_DOTS
    && LiveSet(st) !! CoveredSet(st)
  }

  /** A normal state is determined by its two sets of dots. */
  lemma {:induction false} NormalUnique(s: ElementState, t: ElementState, val: nat -> Value)
    requires Normal(s, val) && Normal(t, val)
    requires LiveSet(s) == LiveSet(t) && CoveredSet(s) == CoveredSet(t)
    ensures s == t
  {
    forall x ensures x in s.covered <==> x in t.covered {
      assert x in CoveredSet(s) <==> x in CoveredSet(t);
    }
    T.DescendingUnique(s.covered, t.covered);
    var p, q := Dots(s.live), Dots(t.live);
    forall x ensures x in p <==> x in q {
      assert x in LiveSet(s) <==> x in LiveSet(t);
    }
    T.DescendingUnique(p, q);
    forall i | 0 <= i < |s.live| ensures s.live[i] == t.live[i] {
      assert p[i] == s.live[i].dot && q[i] == t.live[i].dot;
      assert s.live[i] in s.live && t.live[i] in t.live;
    }
  }

  lemma {:induction false} TruncateDots(live: seq<Entry>, n: nat)
    ensures Dots(Truncate(live, n)) == T.Take(Dots(live), n)
    ensures forall e :: e in Truncate(live, n) ==> e in live
  {}

  lemma {:induction false} NormalizeCovered(st: ElementState)
    ensures var r := Normalize(st);
      T.Descending(r.covered) && CoveredSet(r) == T.Top(CoveredSet(st), MAX_TOMB_DOTS) &&
        |CoveredSet(r)| <= MAX_TOMB_DOTS
  {
    var sorted := S.Sort(st.covered, Above);
    SortFalling(st.covered);
    DedupFalling(sorted);
    var all := Dedup(sorted, Itself);
    T.TakeIsTop(all, MAX_TOMB_DOTS);
    T.TopSize(CoveredSet(st), MAX_TOMB_DOTS);
  }

  lemma {:induction false} NormalizeLive(st: ElementState)
    ensures var r := Normalize(st);
      && T.Descending(Dots(r.live))
      && LiveSet(r) == T.Top(LiveSet(st) - CoveredSet(r), MAX_LIVE_DOTS) && |LiveSet(r)| <= MAX_LIVE_DOTS
      && forall e :: e in r.live ==> e in st.live
  {
    var r := Normalize(st);
    var sorted := S.Sort(st.live, DotAbove);
    SortEntries(st.live);
    DedupDots(sorted);
    DedupFalling(Dots(sorted));
    var all := Dedup(sorted, DotOf);
    RetainDots(all, r.covered);
    var kept := Retain(all, r.covered);
    T.TakeIsTop(Dots(kept), MAX_LIVE_DOTS);
    TruncateDots(kept, MAX_LIVE_DOTS);
    T.TopSize(LiveSet(st) - CoveredSet(r), MAX_LIVE_DOTS);
  }

  /** Normalizing keeps the highest covered dots and the highest live dots not among them. */
  lemma {:induction false} NormalizeMeaning(st: ElementState, val: nat -> Value)
    requires Consistent(st.live, val)
    ensures Normal(Normalize(st), val)
    ensures CoveredSet(Normalize(st)) == T.Top(CoveredSet(st), MAX_TOMB_DOTS)
    ensures LiveSet(Normalize(st)) == T.Top(LiveSet(st) - CoveredSet(Normalize(st)), MAX_LIVE_DOTS)
  {
    NormalizeCovered(st);
    NormalizeLive(st);
  }

  /** Normalizing a normal state changes nothing. */
  lemma {:induction false} NormalizeNormal(st: ElementState, val: nat -> Value)
    requires Normal(st, val)
    ensures Normalize(st) == st
  {
    NormalizeMeaning(st, val);
    T.TopAll(CoveredSet(st), MAX_TOMB_DOTS);
    T.TopAll(LiveSet(st), MAX_LIVE_DOTS);
    assert LiveSet(st) - CoveredSet(st) == LiveSet(st);
    NormalUnique(Normalize(st), st, val);
  }

  // ----- one entry per node ------------------------------------------------

  predicate Superseded(s: set<nat>, d: nat) {
    exists e :: e in s && Origin(e) == Origin(d) && e > d
  }

  /** The highest dot of each origin. */
  function Newest(s: set<nat>): set<nat> {
    set d | d in s && !Superseded(s, d)
  }

  predicate OnePerOrigin(s: set<nat>) {
    forall d, e :: d in s && e in s && Origin(d) == Origin(e) ==> d == e
  }

  lemma {:induction false} NewestOne(s: set<nat>)
    ensures OnePerOrigin(Newest(s))
  {
    var r := Newest(s);
    forall d, e | d in r && e in r && Origin(d) == Origin(e) ensures d == e {
      assert d in s && e in s && !Superseded(s, d) && !Superseded(s, e);
    }
  }

  lemma {:induction false} NewestSelf(s: set<nat>)
    requires OnePerOrigin(s)
    ensures Newest(s) == s
  {
    forall d | d in s ensures !Superseded(s, d) {}
  }

  lemma {:induction false} NewestSnoc(s: set<nat>, last: nat, seen: bool)
    requires forall d :: d in s ==> d > last
    requires seen <==> exists d :: d in s && Origin(d) == Origin(last)
    ensures Newest(s + {last}) == Newest(s) + (if seen then {} else {last})
  {
    var all := s + {last};
    forall d | d in s ensures Superseded(all, d) <==> Superseded(s, d) {
      if Superseded(s, d) {
        var e :| e in s && Origin(e) == Origin(d) && e > d;
        assert e in all;
      }
    }
    assert Superseded(all, last) <==> seen by {
      if seen {
        var d :| d in s && Origin(d) == Origin(last);
        assert d in all;
      }
    }
  }

  lemma {:induction false} SeenDots(live: seq<Entry>, origin: nat)
    ensures Seen(live, origin) <==> exists d :: d in T.Elements(Dots(live)) && Origin(d) == origin
  {
    if Seen(live, origin) {
      var i :| 0 <= i < |live| && Origin(live[i].dot) == origin;
      assert Dots(live)[i] == live[i].dot;
    }
    if d :| d in T.Elements(Dots(live)) && Origin(d) == origin {
      var i :| 0 <= i < |live| && Dots(live)[i] == d;
      assert live[i].dot == d;
    }
  }

  lemma {:induction false} FrontDots(front: seq<Entry>, last: Entry)
    requires T.Descending(Dots(front + [last]))
    ensures T.Descending(Dots(front)) && Dots(front + [last]) == Dots(front) + [last.dot]
    ensures T.Elements(Dots(front + [last])) == T.Elements(Dots(front)) + {last.dot}
    ensures forall d :: d in T.Elements(Dots(front)) ==> d > last.dot
  {
    var all := Dots(front + [last]);
    assert all == Dots(front) + [last.dot];
    forall i, j | 0 <= i < j < |front| ensures Dots(front)[i] > Dots(front)[j] { assert all[i] > all[j]; }
    forall d | d in Dots(front) ensures d > last.dot {
      var i :| 0 <= i < |front| && Dots(front)[i] == d;
      assert all[i] > all[|front|];
    }
  }

  /** Collapsing a list that falls by dot keeps the highest dot of each origin. */
  lemma {:induction false} CollapseMeaning(live: seq<Entry>)
    requires T.Descending(Dots(live))
    ensures var r := Collapse(live);
      && T.Descending(Dots(r)) && T.Elements(Dots(r)) == Newest(T.Elements(Dots(live)))
      && forall e :: e in r ==> e in live
  {
    if live != [] {
      var front, last := live[..|live| - 1], live[|live| - 1];
      assert live == front + [last];
      FrontDots(front, last);
      CollapseMeaning(front);
      SeenDots(front, Origin(last.dot));
      NewestSnoc(T.Elements(Dots(front)), last.dot, Seen(front, Origin(last.dot)));
      var rest := Collapse(front);
      assert Dots(rest + [last]) == Dots(rest) + [last.dot];
      AppendLower(Dots(rest), Dots(front), last.dot);
    }
  }

  /** What a record of a type keeps of its candidate dots. */
  function Kept(rtype: nat, s: set<nat>): set<nat> {
    var top := T.Top(s, MAX_LIVE_DOTS);
    if rtype == COUNTER_FIELD then Newest(top) else top
  }

  lemma {:induction false} CollapsedNormal(rtype: nat, st: ElementState, val: nat -> Value)
    requires Normal(st, val)
    ensures var r := Collapsed(rtype, st);
      && Normal(r, val) && CoveredSet(r) == CoveredSet(st)
      && LiveSet(r) == if rtype == COUNTER_FIELD then Newest(LiveSet(st)) else LiveSet(st)
  {
    CollapseMeaning(st.live);
    S.SubsetSize(Newest(LiveSet(st)), LiveSet(st));
  }
}
