/** Owner lists: their size, order independence and zone spread, and the effect of one more candidate. */
module Rebalance {
  import opened Options
  import opened Placement
  import opened PlacementLaws
  import S = Sorting
  import T = TopSets

  // ----- what the lists hold -----------------------------------------------

  lemma {:induction false} RanksSize(s: seq<Scored>)
    requires Falling(s)
    ensures |Ranks(s)| == |s|
  {
    if s != [] {
      LastIsLowest(s);
      RanksSize(s[..|s| - 1]);
      RanksSnoc(s[..|s| - 1], s[|s| - 1]);
    }
  }

  lemma {:induction false} TruncateMeaning(s: seq<Scored>, n: nat)
    requires Falling(s)
    ensures Ranks(Truncate(s, n)) == T.Top(Ranks(s), n)
  {
    RanksSize(s);
    if |s| <= n {
      T.TopAll(Ranks(s), n);
    } else {
      var front, c := s[..|s| - 1], s[|s| - 1];
      LastIsLowest(s);
      TruncateMeaning(front, n);
      RanksSize(front);
      RanksSnoc(front, c);
      TopAddLowest(Ranks(front), Rank(c), n);
      assert Truncate(s, n) == Truncate(front, n);
    }
  }

  lemma {:induction false} ZonedMeaning(s: seq<Scored>, z: Zones, n: nat)
    requires Falling(s) && Labelled(s, z)
    ensures FillOk(FillPass(s, n, ZonePass(s, n).out), Ranks(s), Spread(Ranks(s), z, n), n)
  {
    ZonePassMeaning(s, z, n);
    ZonePassFrom(s, n);
    T.TopSize(Leaders(Ranks(s), z), n);
    FillPassMeaning(s, |s|, ZonePass(s, n).out, n);
    assert s[..|s|] == s;
  }

  /** The chosen candidates are the owners among the candidates' ranks. */
  lemma {:induction false} ChosenMeaning(cs: seq<Candidate>, score: nat -> nat, n: nat, zoneSpread: bool, z: Zones)
    requires Members(cs) && ZonesOf(cs, score, z)
    ensures Ranks(Chosen(cs, score, n, zoneSpread)) == Owners(RankSet(cs, score), z, n, zoneSpread)
  {
    var s := Sorted(cs, score);
    SortedRanks(cs, score, z);
    if zoneSpread {
      ZonedMeaning(s, z, n);
    } else {
      TruncateMeaning(s, n);
    }
  }

  lemma {:induction false} NotAmong(front: seq<Scored>, c: Scored)
    requires AllAbove(Ranks(front), Rank(c))
    ensures c !in front
  {
    assert c in front ==> Rank(c) in Ranks(front);
  }

  lemma {:induction false} ZonePassDistinct(s: seq<Scored>, n: nat)
    requires Falling(s)
    ensures S.Distinct(ZonePass(s, n).out)
  {
    if s != [] {
      LastIsLowest(s);
      ZonePassDistinct(s[..|s| - 1], n);
      ZonePassFrom(s[..|s| - 1], n);
      NotAmong(s[..|s| - 1], s[|s| - 1]);
    }
  }

  lemma {:induction false} FillPassDistinct(s: seq<Scored>, n: nat, out: seq<Scored>)
    requires S.Distinct(out)
    ensures S.Distinct(FillPass(s, n, out))
  {
    if s != [] { FillPassDistinct(s[..|s| - 1], n, out); }
  }

  lemma {:induction false} ChosenFrom(cs: seq<Candidate>, score: nat -> nat, n: nat, zoneSpread: bool)
    requires Members(cs)
    ensures forall c :: c in Chosen(cs, score, n, zoneSpread) ==> c in Sorted(cs, score)
    ensures S.Distinct(Chosen(cs, score, n, zoneSpread))
  {
    var s := Sorted(cs, score);
    var z: Zones := ZoneMap(cs, score);
    SortedRanks(cs, score, z);
    ZonePassFrom(s, n);
    ZonePassDistinct(s, n);
    FillPassFrom(s, n, ZonePass(s, n).out);
    FillPassDistinct(s, n, ZonePass(s, n).out);
  }

  /** The zone of each rank among the candidates. */
  ghost function ZoneMap(cs: seq<Candidate>, score: nat -> nat): (z: Zones)
    requires Members(cs)
    ensures ZonesOf(cs, score, z)
  {
    var z := (r: nat) => if c :| c in cs && Rank(ScoreOf(c, score)) == r then c.zone else None;
    z
  }

  // ----- lists of nodes ----------------------------------------------------

  lemma {:induction false} ChosenSize(cs: seq<Candidate>, score: nat -> nat, n: nat, zoneSpread: bool)
    requires Members(cs)
    ensures |Chosen(cs, score, n, zoneSpread)| == if |cs| <= n then |cs| else n
  {
    var s, z := Sorted(cs, score), ZoneMap(cs, score);
    SortedRanks(cs, score, z);
    RanksSize(s);
    assert |s| == |multiset(s)| == |multiset(ScoreAll(cs, score))| == |cs|;
    if zoneSpread {
      ZonedMeaning(s, z, n);
      SpreadWithin(Ranks(s), z, n);
    }
  }

  /** Owners are distinct candidates, and as many as asked for while there are candidates. */
  lemma {:induction false} OwnersCount(cs: seq<Candidate>, score: nat -> nat, n: nat, zoneSpread: bool)
    requires Members(cs)
    ensures var owners := Nodes(Chosen(cs, score, n, zoneSpread));
      && S.Distinct(owners) && |owners| == (if |cs| <= n then |cs| else n)
      && forall m :: m in owners ==> exists c :: c in cs && c.node == m
  {
    var chosen := Chosen(cs, score, n, zoneSpread);
    ChosenSize(cs, score, n, zoneSpread);
    ChosenFrom(cs, score, n, zoneSpread);
    SortedMembers(cs, score);
    DistinctNodes(chosen, Sorted(cs, score));
    forall m | m in Nodes(chosen) ensures exists c :: c in cs && c.node == m {
      var i :| 0 <= i < |chosen| && Nodes(chosen)[i] == m;
      ScoredIff(cs, score);
      assert chosen[i] in Sorted(cs, score);
    }
  }

  lemma {:induction false} SpreadWithin(s: set<nat>, z: Zones, n: nat)
    ensures |Spread(s, z, n)| <= n && |Filled(s, Spread(s, z, n), n)| == if |s| <= n then |s| else n
  {
    var p := Spread(s, z, n);
    T.TopSize(Leaders(s, z), n);
    FilledSize(s, p, n);
    assert p + (s - p) == s && p !! (s - p);
  }

  lemma {:induction false} DistinctNodes(chosen: seq<Scored>, s: seq<Scored>)
    requires S.Distinct(chosen) && OneEach(s) && forall c :: c in chosen ==> c in s
    ensures S.Distinct(Nodes(chosen))
  {
    forall i, j | 0 <= i < j < |chosen| ensures Nodes(chosen)[i] != Nodes(chosen)[j] {
      assert chosen[i] in s && chosen[j] in s && chosen[i] != chosen[j];
      var a :| 0 <= a < |s| && s[a] == chosen[i];
      var b :| 0 <= b < |s| && s[b] == chosen[j];
    }
  }

  /** Owners do not depend on the order in which candidates are listed. */
  lemma {:induction false} OwnersIgnoreOrder(cs: seq<Candidate>, ds: seq<Candidate>, score: nat -> nat, n: nat,
      zoneSpread: bool)
    requires Members(cs) && Members(ds) && forall c :: c in cs <==> c in ds
    ensures Chosen(cs, score, n, zoneSpread) == Chosen(ds, score, n, zoneSpread)
  {
    SortedRanks(cs, score, ZoneMap(cs, score));
    SortedRanks(ds, score, ZoneMap(ds, score));
    ScoredIff(cs, score);
    ScoredIff(ds, score);
    S.StrictUnique(Sorted(cs, score), Sorted(ds, score), (x: Scored, y: Scored) => Rank(x) > Rank(y));
  }

  // ----- zones -------------------------------------------------------------

  function ZoneNames(s: set<nat>, z: Zones): set<string> {
    set x | x in s && z(x).Some? :: z(x).value
  }

  lemma {:induction false} LeaderOf(s: set<nat>, z: Zones, x: nat) returns (l: nat)
    requires x in s && z(x).Some?
    ensures l in Leaders(s, z) && z(l) == z(x)
    decreases T.Above(s, x)
  {
    if Leads(s, z, x) {
      l := x;
    } else {
      var y :| y in s && y > x && z(y) == z(x);
      assert T.Above(s, y) < T.Above(s, x) by { assert y in T.Above(s, x) && y !in T.Above(s, y); }
      l := LeaderOf(s, z, y);
    }
  }

  /** Leaders carry distinct zones. */
  lemma {:induction false} LeaderZones(s: set<nat>, z: Zones, t: set<nat>)
    requires t <= Leaders(s, z)
    ensures |ZoneNames(t, z)| == |t|
  {
    if t != {} {
      var x :| x in t;
      LeaderZones(s, z, t - {x});
      assert ZoneNames(t, z) == ZoneNames(t - {x}, z) + {z(x).value};
      forall y | y in t - {x} ensures z(y) != z(x) {
        assert Leads(s, z, x) && Leads(s, z, y);
      }
      assert z(x).value !in ZoneNames(t - {x}, z);
    }
  }

  lemma {:induction false} LeadersNameAll(s: set<nat>, z: Zones)
    ensures ZoneNames(Leaders(s, z), z) == ZoneNames(s, z)
  {
    forall w | w in ZoneNames(s, z) ensures w in ZoneNames(Leaders(s, z), z) {
      var x :| x in s && z(x).Some? && z(x).value == w;
      var l := LeaderOf(s, z, x);
    }
  }

  lemma {:induction false} NamesMonotone(s: set<nat>, t: set<nat>, z: Zones)
    requires s <= t
    ensures ZoneNames(s, z) <= ZoneNames(t, z)
  {}

  /** With a zone per slot, the owners are the highest zone leaders. */
  lemma {:induction false} OwnersAllLead(s: set<nat>, z: Zones, n: nat)
    requires |Leaders(s, z)| >= n
    ensures Owners(s, z, n, true) == T.Top(Leaders(s, z), n)
  {
    T.TopFull(Leaders(s, z), n);
    assert T.Top(s - Spread(s, z, n), 0) == {};
  }

  /** With fewer zones than slots, every leader owns and the rest goes by rank. */
  lemma {:induction false} OwnersWithRoom(s: set<nat>, z: Zones, n: nat)
    requires |Leaders(s, z)| <= n
    ensures Owners(s, z, n, true) == Leaders(s, z) + T.Top(s - Leaders(s, z), n - |Leaders(s, z)|)
  {
    T.TopAll(Leaders(s, z), n);
  }

  lemma {:induction false} FewZones(s: set<nat>, z: Zones, n: nat)
    requires |Leaders(s, z)| <= n
    ensures ZoneNames(Owners(s, z, n, true), z) == ZoneNames(s, z)
  {
    OwnersWithRoom(s, z, n);
    LeadersNameAll(s, z);
    NamesMonotone(Leaders(s, z), Owners(s, z, n, true), z);
    NamesMonotone(Owners(s, z, n, true), s, z);
  }

  lemma {:induction false} ManyZones(s: set<nat>, z: Zones, n: nat)
    requires |Leaders(s, z)| >= n
    ensures |ZoneNames(Owners(s, z, n, true), z)| == n
  {
    OwnersAllLead(s, z, n);
    T.TopFull(Leaders(s, z), n);
    LeaderZones(s, z, T.Top(Leaders(s, z), n));
  }

  /** With spreading, owners span as many zones as there are labelled zones, or slots. */
  lemma {:induction false} OwnersSpanZones(s: set<nat>, z: Zones, n: nat)
    ensures |ZoneNames(Owners(s, z, n, true), z)| == if |ZoneNames(s, z)| <= n then |ZoneNames(s, z)| else n
  {
    LeadersNameAll(s, z);
    LeaderZones(s, z, Leaders(s, z));
    if |Leaders(s, z)| <= n { FewZones(s, z, n); } else { ManyZones(s, z, n); }
  }

  // ----- one more candidate ------------------------------------------------

  /** A further element enters the top by itself or not at all. */
  lemma {:induction false} TopAdd(s: set<nat>, x: nat, n: nat)
    ensures T.Top(s + {x}, n) <= T.Top(s, n) + {x}
  {
    forall y | y in T.Top(s + {x}, n) ensures y in T.Top(s, n) + {x} {
      T.AboveMonotone(s, s + {x}, y);
    }
  }

  lemma {:induction false} TopGrows(s: set<nat>, k: nat, n: nat)
    requires k <= n
    ensures T.Top(s, k) <= T.Top(s, n)
  {}

  /** Raising one element of a set leaves the other tops in place. */
  lemma {:induction false} TopRaise(s: set<nat>, y: nat, x: nat, n: nat)
    requires y in s && x !in s && x > y
    ensures T.Top(s - {y} + {x}, n) <= T.Top(s, n) + {x}
  {
    var t := s - {y} + {x};
    forall a | a in T.Top(t, n) && a != x ensures a in T.Top(s, n) {
      if y > a {
        assert T.Above(s, a) - {y} + {x} == T.Above(t, a);
        assert |T.Above(s, a) - {y}| == |T.Above(s, a)| - 1;
      } else {
        assert T.Above(s, a) <= T.Above(t, a);
        S.SubsetSize(T.Above(s, a), T.Above(t, a));
      }
    }
  }

  lemma {:induction false} LeadersSame(s: set<nat>, z: Zones, x: nat)
    requires x !in s && !Leads(s + {x}, z, x)
    ensures Leaders(s + {x}, z) == Leaders(s, z)
  {
    forall y | y in s ensures Leads(s + {x}, z, y) <==> Leads(s, z, y) {}
  }

  lemma {:induction false} LeadersNewZone(s: set<nat>, z: Zones, x: nat)
    requires x !in s && Unseen(s, z, x)
    ensures Leaders(s + {x}, z) == Leaders(s, z) + {x}
  {
    forall y | y in s ensures Leads(s + {x}, z, y) <==> Leads(s, z, y) {}
    assert Leads(s + {x}, z, x);
  }

  lemma {:induction false} OneLeader(s: set<nat>, z: Zones, a: nat, b: nat)
    requires a in Leaders(s, z) && b in Leaders(s, z) && z(a) == z(b)
    ensures a == b
  {}

  lemma {:induction false} LeadersReplaced(s: set<nat>, z: Zones, x: nat, l: nat)
    requires x !in s && Leads(s + {x}, z, x) && l in Leaders(s, z) && z(l) == z(x)
    ensures x > l && Leaders(s + {x}, z) == Leaders(s, z) - {l} + {x}
  {
    assert !(l > x) by { assert l in s + {x}; }
    forall y | y in s ensures Leads(s + {x}, z, y) <==> Leads(s, z, y) && y != l {
      if Leads(s, z, y) && z(y) == z(x) { OneLeader(s, z, y, l); }
    }
  }

  lemma {:induction false} AddFollower(s: set<nat>, z: Zones, x: nat, n: nat)
    requires x !in s && !Leads(s + {x}, z, x)
    ensures Owners(s + {x}, z, n, true) <= Owners(s, z, n, true) + {x}
  {
    var l := Leaders(s, z);
    LeadersSame(s, z, x);
    if |l| >= n {
      OwnersAllLead(s, z, n);
      OwnersAllLead(s + {x}, z, n);
    } else {
      OwnersWithRoom(s, z, n);
      OwnersWithRoom(s + {x}, z, n);
      assert s + {x} - l == (s - l) + {x};
      TopAdd(s - l, x, n - |l|);
    }
  }

  lemma {:induction false} RestSame(s: set<nat>, l: set<nat>, x: nat, k: nat)
    requires x !in s && l <= s && k > 0
    ensures T.Top(s + {x} - (l + {x}), k - 1) <= T.Top(s - l, k)
  {
    assert s + {x} - (l + {x}) == s - l;
    TopGrows(s - l, k - 1, k);
  }

  lemma {:induction false} AddNewZone(s: set<nat>, z: Zones, x: nat, n: nat)
    requires x !in s && Unseen(s, z, x)
    ensures Owners(s + {x}, z, n, true) <= Owners(s, z, n, true) + {x}
  {
    var l := Leaders(s, z);
    LeadersNewZone(s, z, x);
    if |l| >= n {
      OwnersAllLead(s, z, n);
      OwnersAllLead(s + {x}, z, n);
      TopAdd(l, x, n);
    } else {
      OwnersWithRoom(s, z, n);
      OwnersWithRoom(s + {x}, z, n);
      RestSame(s, l, x, n - |l|);
    }
  }

  lemma {:induction false} SameCount(s: set<nat>, l: nat, x: nat)
    requires l in s && x !in s
    ensures |s - {l} + {x}| == |s|
  {}

  lemma {:induction false} RestGrows(s: set<nat>, leaders: set<nat>, l: nat, x: nat, k: nat)
    requires leaders <= s && l in leaders && x !in s
    ensures T.Top(s + {x} - (leaders - {l} + {x}), k) <= T.Top(s - leaders, k) + {l}
  {
    assert s + {x} - (leaders - {l} + {x}) == (s - leaders) + {l};
    TopAdd(s - leaders, l, k);
  }

  lemma {:induction false} AddNewLeader(s: set<nat>, z: Zones, x: nat, l: nat, n: nat)
    requires x !in s && Leads(s + {x}, z, x) && l in Leaders(s, z) && z(l) == z(x)
    ensures Owners(s + {x}, z, n, true) <= Owners(s, z, n, true) + {x}
  {
    var leaders := Leaders(s, z);
    LeadersReplaced(s, z, x, l);
    SameCount(leaders, l, x);
    if |leaders| >= n {
      OwnersAllLead(s, z, n);
      OwnersAllLead(s + {x}, z, n);
      TopRaise(leaders, l, x, n);
    } else {
      OwnersWithRoom(s, z, n);
      OwnersWithRoom(s + {x}, z, n);
      RestGrows(s, leaders, l, x, n - |leaders|);
    }
  }

  /** A new candidate is the only owner that can come in. */
  lemma {:induction false} OnlyTheNewcomer(s: set<nat>, z: Zones, x: nat, n: nat, zoneSpread: bool)
    requires x !in s
    ensures Owners(s + {x}, z, n, zoneSpread) <= Owners(s, z, n, zoneSpread) + {x}
  {
    if !zoneSpread {
      TopAdd(s, x, n);
    } else if !Leads(s + {x}, z, x) {
      AddFollower(s, z, x, n);
    } else if y :| y in s && z(y) == z(x) {
      var l := LeaderOf(s, z, y);
      AddNewLeader(s, z, x, l, n);
    } else {
      AddNewZone(s, z, x, n);
    }
  }

  lemma {:induction false} OwnersSize(s: set<nat>, z: Zones, n: nat, zoneSpread: bool)
    ensures |Owners(s, z, n, zoneSpread)| == if |s| <= n then |s| else n
  {
    if zoneSpread {
      SpreadWithin(s, z, n);
    } else if |s| <= n {
      T.TopAll(s, n);
    } else {
      T.TopFull(s, n);
    }
  }

  /** Adding one candidate brings in at most that candidate and displaces at most one owner. */
  lemma {:induction false} MinimalDisruption(s: set<nat>, z: Zones, x: nat, n: nat, zoneSpread: bool)
    requires x !in s
    ensures var before, after := Owners(s, z, n, zoneSpread), Owners(s + {x}, z, n, zoneSpread);
      after <= before + {x} && |before - after| <= 1
  {
    var before, after := Owners(s, z, n, zoneSpread), Owners(s + {x}, z, n, zoneSpread);
    OnlyTheNewcomer(s, z, x, n, zoneSpread);
    OwnersSize(s, z, n, zoneSpread);
    OwnersSize(s + {x}, z, n, zoneSpread);
    var kept := after - {x};
    assert kept <= before;
    assert |before - kept| == |before| - |kept|;
    S.SubsetSize(before - after, before - kept);
  }

  // ----- the same about lists ----------------------------------------------

  function RankOf(m: nat, score: nat -> nat): nat {
    score(m) * 0x1_0000 + m
  }

  lemma {:induction false} ListedByRank(cs: seq<Candidate>, score: nat -> nat, n: nat, zoneSpread: bool, z: Zones,
      m: nat)
    requires Members(cs) && ZonesOf(cs, score, z) && m < 0x1_0000
    ensures m in Nodes(Chosen(cs, score, n, zoneSpread)) <==>
            RankOf(m, score) in Owners(RankSet(cs, score), z, n, zoneSpread)
  {
    var chosen := Chosen(cs, score, n, zoneSpread);
    ChosenMeaning(cs, score, n, zoneSpread, z);
    ChosenFrom(cs, score, n, zoneSpread);
    ScoredIff(cs, score);
    if m in Nodes(chosen) {
      var i :| 0 <= i < |chosen| && Nodes(chosen)[i] == m;
      assert chosen[i] in chosen && Rank(chosen[i]) == RankOf(m, score);
    }
    if RankOf(m, score) in Ranks(chosen) {
      var c :| c in chosen && Rank(c) == RankOf(m, score);
      RankInjective(c, Scored(score(m), m, None));
      var i :| 0 <= i < |chosen| && chosen[i] == c;
      assert Nodes(chosen)[i] == m;
    }
  }

  lemma {:induction false} RankSetGrows(cs: seq<Candidate>, c: Candidate, ds: seq<Candidate>, score: nat -> nat)
    requires Members(ds) && c !in cs && forall d :: d in ds <==> d in cs || d == c
    ensures RankSet(ds, score) == RankSet(cs, score) + {RankOf(c.node, score)} &&
      RankOf(c.node, score) !in RankSet(cs, score)
  {
    if RankOf(c.node, score) in RankSet(cs, score) {
      var d :| d in cs && Rank(ScoreOf(d, score)) == RankOf(c.node, score);
      MemberRank(ds, score, c, d);
    }
  }

  lemma {:induction false} MemberRank(ds: seq<Candidate>, score: nat -> nat, c: Candidate, d: Candidate)
    requires Members(ds) && c in ds && d in ds && Rank(ScoreOf(c, score)) == Rank(ScoreOf(d, score))
    ensures c == d
  {
    RankInjective(ScoreOf(c, score), ScoreOf(d, score));
    var i :| 0 <= i < |ds| && ds[i] == c;
    var j :| 0 <= j < |ds| && ds[j] == d;
  }

  /** ds are the candidates cs and c. */
  ghost predicate Joins(cs: seq<Candidate>, c: Candidate, ds: seq<Candidate>) {
    Members(cs) && Members(ds) && c !in cs && forall d :: d in ds <==> d in cs || d == c
  }

  lemma {:induction false} NewOwner(cs: seq<Candidate>, c: Candidate, ds: seq<Candidate>, score: nat -> nat, n: nat,
      zoneSpread: bool, z: Zones, m: nat)
    requires Joins(cs, c, ds) && ZonesOf(ds, score, z) && m in Nodes(Chosen(ds, score, n, zoneSpread))
    ensures m in Nodes(Chosen(cs, score, n, zoneSpread)) || m == c.node
  {
    RankSetGrows(cs, c, ds, score);
    MinimalDisruption(RankSet(cs, score), z, RankOf(c.node, score), n, zoneSpread);
    NodeBound(ds, score, n, zoneSpread, m);
    MemberBound(c, ds);
    ListedByRank(ds, score, n, zoneSpread, z, m);
    ListedByRank(cs, score, n, zoneSpread, z, m);
    if RankOf(m, score) == RankOf(c.node, score) { SameNode(m, c.node, score); }
  }

  lemma {:induction false} Displaced(cs: seq<Candidate>, c: Candidate, ds: seq<Candidate>, score: nat -> nat, n: nat,
      zoneSpread: bool, z: Zones, a: nat)
    requires Joins(cs, c, ds) && ZonesOf(ds, score, z)
    requires a in Nodes(Chosen(cs, score, n, zoneSpread)) && a !in Nodes(Chosen(ds, score, n, zoneSpread))
    ensures a < 0x1_0000
    ensures RankOf(a, score) in
            Owners(RankSet(cs, score), z, n, zoneSpread) - Owners(RankSet(ds, score), z, n, zoneSpread)
  {
    NodeBound(cs, score, n, zoneSpread, a);
    ListedByRank(ds, score, n, zoneSpread, z, a);
    ListedByRank(cs, score, n, zoneSpread, z, a);
  }

  /** A node that joins the candidates displaces at most one owner, and no other node becomes an owner. */
  lemma {:induction false} JoinDisplacesAtMostOne(cs: seq<Candidate>, c: Candidate, ds: seq<Candidate>,
      score: nat -> nat, n: nat, zoneSpread: bool)
    requires Joins(cs, c, ds)
    ensures var before, after := Nodes(Chosen(cs, score, n, zoneSpread)), Nodes(Chosen(ds, score, n, zoneSpread));
      && (forall m :: m in after ==> m in before || m == c.node)
      && (forall a, b :: a in before && a !in after && b in before && b !in after ==> a == b)
  {
    var before, after := Nodes(Chosen(cs, score, n, zoneSpread)), Nodes(Chosen(ds, score, n, zoneSpread));
    var z := ZoneMap(ds, score);
    forall m | m in after ensures m in before || m == c.node { NewOwner(cs, c, ds, score, n, zoneSpread, z, m); }
    forall a, b | a in before && a !in after && b in before && b !in after ensures a == b {
      Displaced(cs, c, ds, score, n, zoneSpread, z, a);
      Displaced(cs, c, ds, score, n, zoneSpread, z, b);
      RankSetGrows(cs, c, ds, score);
      MinimalDisruption(RankSet(cs, score), z, RankOf(c.node, score), n, zoneSpread);
      AtMostOne(Owners(RankSet(cs, score), z, n, zoneSpread) - Owners(RankSet(ds, score), z, n, zoneSpread),
        RankOf(a, score), RankOf(b, score));
      SameNode(a, b, score);
    }
  }

  lemma {:induction false} AtMostOne(s: set<nat>, a: nat, b: nat)
    requires |s| <= 1 && a in s && b in s
    ensures a == b
  {
    if a != b { S.SubsetSize({a, b}, s); }
  }

  lemma {:induction false} SameNode(a: nat, b: nat, score: nat -> nat)
    requires a < 0x1_0000 && b < 0x1_0000 && RankOf(a, score) == RankOf(b, score)
    ensures a == b
  {
    RankInjective(Scored(score(a), a, None), Scored(score(b), b, None));
  }

  lemma {:induction false} NodeBound(cs: seq<Candidate>, score: nat -> nat, n: nat, zoneSpread: bool, m: nat)
    requires Members(cs) && m in Nodes(Chosen(cs, score, n, zoneSpread))
    ensures m < 0x1_0000
  {
    OwnersCount(cs, score, n, zoneSpread);
  }

  lemma {:induction false} MemberBound(c: Candidate, ds: seq<Candidate>)
    requires Members(ds) && c in ds
    ensures c.node < 0x1_0000
  {}

  function CandidateZones(cs: seq<Candidate>): set<string> {
    set c | c in cs && c.zone.Some? :: c.zone.value
  }

  function ChosenZones(s: seq<Scored>): set<string> {
    set c | c in s && c.zone.Some? :: c.zone.value
  }

  /** With spreading, the owners cover every labelled zone, or as many zones as there are owners asked for. */
  lemma {:induction false} ZonesCovered(cs: seq<Candidate>, score: nat -> nat, n: nat)
    requires Members(cs)
    ensures |ChosenZones(Chosen(cs, score, n, true))| == if |CandidateZones(cs)| <= n then |CandidateZones(cs)| else n
  {
    var z, s, chosen := ZoneMap(cs, score), RankSet(cs, score), Chosen(cs, score, n, true);
    ChosenMeaning(cs, score, n, true, z);
    ChosenFrom(cs, score, n, true);
    SortedRanks(cs, score, z);
    OwnersSpanZones(s, z, n);
    NamesOfCandidates(cs, score, z);
    NamesOfChosen(chosen, z);
  }

  lemma {:induction false} NamesOfCandidates(cs: seq<Candidate>, score: nat -> nat, z: Zones)
    requires ZonesOf(cs, score, z)
    ensures ZoneNames(RankSet(cs, score), z) == CandidateZones(cs)
  {
    forall w | w in CandidateZones(cs) ensures w in ZoneNames(RankSet(cs, score), z) {
      var c :| c in cs && c.zone.Some? && c.zone.value == w;
      assert Rank(ScoreOf(c, score)) in RankSet(cs, score);
    }
    forall w | w in ZoneNames(RankSet(cs, score), z) ensures w in CandidateZones(cs) {
      var x :| x in RankSet(cs, score) && z(x).Some? && z(x).value == w;
      var c :| c in cs && Rank(ScoreOf(c, score)) == x;
    }
  }

  lemma {:induction false} NamesOfChosen(chosen: seq<Scored>, z: Zones)
    requires Labelled(chosen, z)
    ensures ZoneNames(Ranks(chosen), z) == ChosenZones(chosen)
  {
    forall w | w in ChosenZones(chosen) ensures w in ZoneNames(Ranks(chosen), z) {
      var c :| c in chosen && c.zone.Some? && c.zone.value == w;
      assert Rank(c) in Ranks(chosen);
    }
    forall w | w in ZoneNames(Ranks(chosen), z) ensures w in ChosenZones(chosen) {
      var x :| x in Ranks(chosen) && z(x).Some? && z(x).value == w;
      var c :| c in chosen && Rank(c) == x;
    }
  }
}
