/** What the owners of a partition are, and how little a new candidate changes them. */
module PlacementLaws {
  import opened Options
  import opened Placement
  import S = Sorting
  import T = TopSets

  // ----- owners as sets of ranks -------------------------------------------

  type Zones = nat -> Option<string>

  predicate Leads(s: set<nat>, z: Zones, x: nat) {
    z(x).Some? && forall y :: y in s && y > x ==> z(y) != z(x)
  }

  /** The highest candidate of each zone. */
  function Leaders(s: set<nat>, z: Zones): set<nat> {
    set x | x in s && Leads(s, z, x)
  }

  function Spread(s: set<nat>, z: Zones, n: nat): set<nat> {
    T.Top(Leaders(s, z), n)
  }

  /** Zone leaders first, then whoever ranks highest. */
  function Owners(s: set<nat>, z: Zones, n: nat, zoneSpread: bool): set<nat> {
    if zoneSpread then
      var p := Spread(s, z, n);
      T.TopSize(Leaders(s, z), n);
      p + T.Top(s - p, n - |p|)
    else T.Top(s, n)
  }

  // ----- the passes pick exactly them --------------------------------------

  function Ranks(s: seq<Scored>): set<nat> {
    set c | c in s :: Rank(c)
  }

  predicate Falling(s: seq<Scored>) {
    forall i, j :: 0 <= i < j < |s| ==> Rank(s[i]) > Rank(s[j])
  }

  ghost predicate Labelled(s: seq<Scored>, z: Zones) {
    forall c :: c in s ==> z(Rank(c)) == c.zone
  }

  lemma {:induction false} RanksSnoc(s: seq<Scored>, c: Scored)
    ensures Ranks(s + [c]) == Ranks(s) + {Rank(c)}
  {
    var t := s + [c];
    forall r ensures r in Ranks(t) <==> r in Ranks(s) || r == Rank(c) {
      if r in Ranks(s) { var x :| x in s && Rank(x) == r; assert x in t; }
      assert c in t;
    }
  }

  predicate AllAbove(s: set<nat>, x: nat) {
    forall y :: y in s ==> y > x
  }

  lemma {:induction false} LastIsLowest(s: seq<Scored>)
    requires Falling(s) && s != []
    ensures Falling(s[..|s| - 1]) && s == s[..|s| - 1] + [s[|s| - 1]]
    ensures AllAbove(Ranks(s[..|s| - 1]), Rank(s[|s| - 1]))
  {
    forall x | x in s[..|s| - 1] ensures Rank(x) > Rank(s[|s| - 1]) {}
  }

  /** A lowest element enters the top only while there is room. */
  lemma {:induction false} TopAddLowest(s: set<nat>, x: nat, n: nat)
    requires AllAbove(s, x)
    ensures T.Top(s + {x}, n) == if |s| < n then s + {x} else T.Top(s, n)
  {
    if |s| < n {
      T.TopAll(s + {x}, n);
    } else {
      assert T.Above(s + {x}, x) == s;
      forall y | y in s ensures T.Above(s + {x}, y) == T.Above(s, y) {}
    }
  }

  lemma {:induction false} LeadersAddLowest(s: set<nat>, z: Zones, x: nat)
    requires AllAbove(s, x)
    ensures Leaders(s + {x}, z) ==
            if Unseen(s, z, x) then Leaders(s, z) + {x} else Leaders(s, z)
  {
    forall y | y in s ensures Leads(s + {x}, z, y) <==> Leads(s, z, y) {}
    assert Leads(s + {x}, z, x) <==> Unseen(s, z, x);
  }

  ghost predicate ZonePassOk(sorted: seq<Scored>, z: Zones, n: nat) {
    var p := ZonePass(sorted, n);
    && Ranks(p.out) == Spread(Ranks(sorted), z, n) && |p.out| == |Ranks(p.out)|
    && (forall w :: w in p.used ==> exists c :: c in sorted && c.zone == Some(w))
    && (|p.out| < n ==> forall c :: c in sorted && c.zone.Some? ==> c.zone.value in p.used)
  }

  lemma {:induction false} ZoneIsNew(front: seq<Scored>, c: Scored, z: Zones, n: nat)
    requires Labelled(front + [c], z) && ZonePassOk(front, z, n) && |ZonePass(front, n).out| < n && c.zone.Some?
    ensures c.zone.value !in ZonePass(front, n).used <==> Unseen(Ranks(front), z, Rank(c))
  {
    var used, s := ZonePass(front, n).used, front + [c];
    assert c in s && forall x :: x in front ==> x in s;
    if c.zone.value in used {
      var x :| x in front && x.zone == c.zone;
      assert Rank(x) in Ranks(front) && z(Rank(x)) == z(Rank(c));
    } else {
      forall y | y in Ranks(front) ensures z(y) != z(Rank(c)) {
        var x :| x in front && Rank(x) == y;
      }
    }
  }

  /** The leaders after one more, lowest, candidate. */
  lemma {:induction false} SpreadStep(front: set<nat>, x: nat, z: Zones, n: nat)
    requires AllAbove(front, x)
    ensures Spread(front + {x}, z, n) ==
            if Unseen(front, z, x) && |Spread(front, z, n)| < n then Spread(front, z, n) + {x} else Spread(front, z, n)
  {
    var l := Leaders(front, z);
    LeadersAddLowest(front, z, x);
    TopAddLowest(l, x, n);
    if |l| < n { T.TopAll(l, n); } else { T.TopFull(l, n); }
  }

  predicate Unseen(front: set<nat>, z: Zones, x: nat) {
    z(x).Some? && forall y :: y in front ==> z(y) != z(x)
  }

  lemma {:induction false} OutStep(out: seq<Scored>, c: Scored, out': seq<Scored>, front: set<nat>, z: Zones, n: nat)
    requires Ranks(out) == Spread(front, z, n) && |out| == |Ranks(out)| && AllAbove(front, Rank(c))
    requires out' == if |out| < n && Unseen(front, z, Rank(c)) then out + [c] else out
    ensures Ranks(out') == Spread(front + {Rank(c)}, z, n) && |out'| == |Ranks(out')|
  {
    SpreadStep(front, Rank(c), z, n);
    RanksSnoc(out, c);
  }

  lemma {:induction false} RanksStep(front: seq<Scored>, c: Scored, z: Zones, n: nat)
    requires ZonePassOk(front, z, n) && Labelled(front + [c], z) && AllAbove(Ranks(front), Rank(c))
    ensures var p := ZonePass(front + [c], n);
      Ranks(p.out) == Spread(Ranks(front + [c]), z, n) && |p.out| == |Ranks(p.out)|
  {
    var s, p := front + [c], ZonePass(front, n);
    assert s[..|s| - 1] == front && c in s;
    T.TopSize(Leaders(Ranks(front), z), n);
    if |p.out| < n && c.zone.Some? { ZoneIsNew(front, c, z, n); }
    OutStep(p.out, c, ZonePass(s, n).out, Ranks(front), z, n);
    RanksSnoc(front, c);
  }

  lemma {:induction false} ZonePassStep(front: seq<Scored>, c: Scored, z: Zones, n: nat)
    requires ZonePassOk(front, z, n) && Labelled(front + [c], z) && AllAbove(Ranks(front), Rank(c))
    ensures ZonePassOk(front + [c], z, n)
  {
    var s := front + [c];
    assert s[..|s| - 1] == front;
    T.TopSize(Leaders(Ranks(front), z), n);
    RanksStep(front, c, z, n);
    UsedStep(front, c, n);
  }

  lemma {:induction false} UsedStep(front: seq<Scored>, c: Scored, n: nat)
    requires forall w :: w in ZonePass(front, n).used ==> exists x :: x in front && x.zone == Some(w)
    ensures forall w :: w in ZonePass(front + [c], n).used ==> exists x :: x in front + [c] && x.zone == Some(w)
  {
    var s := front + [c];
    assert s[..|s| - 1] == front;
    forall w | w in ZonePass(s, n).used ensures exists x :: x in s && x.zone == Some(w) {
      if w in ZonePass(front, n).used {
        var x :| x in front && x.zone == Some(w);
        assert x in s;
      } else {
        assert c in s && c.zone == Some(w);
      }
    }
  }

  lemma {:induction false} ZonePassMeaning(sorted: seq<Scored>, z: Zones, n: nat)
    requires Falling(sorted) && Labelled(sorted, z)
    ensures ZonePassOk(sorted, z, n)
  {
    if sorted != [] {
      LastIsLowest(sorted);
      ZonePassMeaning(sorted[..|sorted| - 1], z, n);
      ZonePassStep(sorted[..|sorted| - 1], sorted[|sorted| - 1], z, n);
    } else {
      assert Spread({}, z, n) == {};
    }
  }

  lemma {:induction false} SameRank(all: seq<Scored>, a: Scored, b: Scored)
    requires Falling(all) && a in all && b in all && Rank(a) == Rank(b)
    ensures a == b
  {
    var i :| 0 <= i < |all| && all[i] == a;
    var j :| 0 <= j < |all| && all[j] == b;
  }

  lemma {:induction false} RankedIff(all: seq<Scored>, p: seq<Scored>, c: Scored)
    requires Falling(all) && c in all && forall x :: x in p ==> x in all
    ensures c in p <==> Rank(c) in Ranks(p)
  {
    if Rank(c) in Ranks(p) {
      var x :| x in p && Rank(x) == Rank(c);
      SameRank(all, x, c);
    }
  }

  function Filled(s: set<nat>, p: set<nat>, n: nat): set<nat>
    requires |p| <= n
  {
    p + T.Top(s - p, n - |p|)
  }

  lemma {:induction false} FilledSize(s: set<nat>, p: set<nat>, n: nat)
    requires |p| <= n
    ensures |Filled(s, p, n)| == if |p| + |s - p| <= n then |p| + |s - p| else n
  {
    var rest := s - p;
    if |rest| <= n - |p| { T.TopAll(rest, n - |p|); } else { T.TopFull(rest, n - |p|); }
    assert p !! T.Top(rest, n - |p|);
  }

  lemma {:induction false} FilledAddPicked(s: set<nat>, p: set<nat>, x: nat, n: nat)
    requires |p| <= n && x in p
    ensures Filled(s + {x}, p, n) == Filled(s, p, n) && x in Filled(s, p, n)
  {
    assert s + {x} - p == s - p;
  }

  lemma {:induction false} FilledAddNew(s: set<nat>, p: set<nat>, x: nat, n: nat)
    requires |p| <= n && AllAbove(s, x) && x !in p
    ensures Filled(s + {x}, p, n) == if |p| + |s - p| < n then Filled(s, p, n) + {x} else Filled(s, p, n)
    ensures x !in Filled(s, p, n)
  {
    assert x !in s;
    assert s + {x} - p == (s - p) + {x};
    TopAddLowest(s - p, x, n - |p|);
    if |s - p| < n - |p| { T.TopAll(s - p, n - |p|); }
  }

  /** A lowest element is filled in exactly when it is not picked yet and there is room. */
  lemma {:induction false} FilledAddLowest(s: set<nat>, p: set<nat>, x: nat, n: nat)
    requires |p| <= n && AllAbove(s, x)
    ensures Filled(s + {x}, p, n) ==
            if x !in Filled(s, p, n) && |Filled(s, p, n)| != n then Filled(s, p, n) + {x} else Filled(s, p, n)
  {
    FilledSize(s, p, n);
    if x in p { FilledAddPicked(s, p, x, n); } else { FilledAddNew(s, p, x, n); }
  }

  ghost predicate FillOk(p: seq<Scored>, s: set<nat>, picked: set<nat>, n: nat) {
    |picked| <= n && Ranks(p) == Filled(s, picked, n) && |p| == |Ranks(p)|
  }

  lemma {:induction false} FillStep(p: seq<Scored>, c: Scored, p': seq<Scored>, s: set<nat>, picked: set<nat>, n: nat)
    requires FillOk(p, s, picked, n) && AllAbove(s, Rank(c))
    requires p' == if |p| != n && Rank(c) !in Ranks(p) then p + [c] else p
    ensures FillOk(p', s + {Rank(c)}, picked, n)
  {
    FilledAddLowest(s, picked, Rank(c), n);
    RanksSnoc(p, c);
  }

  lemma {:induction false} FillPassStep(all: seq<Scored>, front: seq<Scored>, c: Scored, out: seq<Scored>, n: nat)
    requires Falling(all) && c in all &&
      (forall x :: x in front || x in out ==> x in all) && AllAbove(Ranks(front), Rank(c))
    requires FillOk(FillPass(front, n, out), Ranks(front), Ranks(out), n)
    ensures FillOk(FillPass(front + [c], n, out), Ranks(front + [c]), Ranks(out), n)
  {
    var s, p := front + [c], FillPass(front, n, out);
    assert s[..|s| - 1] == front && s[|s| - 1] == c;
    FillPassFrom(front, n, out);
    RankedIff(all, p, c);
    FillStep(p, c, FillPass(s, n, out), Ranks(front), Ranks(out), n);
    RanksSnoc(front, c);
  }

  lemma {:induction false} FillPassMeaning(all: seq<Scored>, k: nat, out: seq<Scored>, n: nat)
    requires Falling(all) && k <= |all| && |out| == |Ranks(out)| <= n && forall x :: x in out ==> x in all
    ensures FillOk(FillPass(all[..k], n, out), Ranks(all[..k]), Ranks(out), n)
  {
    if k == 0 {
      assert {} - Ranks(out) == {};
    } else {
      FillPassMeaning(all, k - 1, out, n);
      LastIsLowest(all[..k]);
      assert all[..k][..k - 1] == all[..k - 1] && all[..k] == all[..k - 1] + [all[k - 1]];
      FillPassStep(all, all[..k - 1], all[k - 1], out, n);
    }
  }

  // ----- candidates --------------------------------------------------------

  /** The ranks of candidates. */
  function RankSet(cs: seq<Candidate>, score: nat -> nat): set<nat> {
    set c | c in cs :: Rank(ScoreOf(c, score))
  }

  ghost predicate ZonesOf(cs: seq<Candidate>, score: nat -> nat, z: Zones) {
    forall c :: c in cs ==> z(Rank(ScoreOf(c, score))) == c.zone
  }

  lemma {:induction false} RankInjective(a: Scored, b: Scored)
    requires a.node < 0x1_0000 && b.node < 0x1_0000 && Rank(a) == Rank(b)
    ensures a.node == b.node
  {
    assert Rank(a) % 0x1_0000 == a.node && Rank(b) % 0x1_0000 == b.node;
  }

  lemma {:induction false} ScoredIff(cs: seq<Candidate>, score: nat -> nat)
    ensures forall c :: c in Sorted(cs, score) <==> exists a :: a in cs && c == ScoreOf(a, score)
  {
    var all := ScoreAll(cs, score);
    S.SameElements(all, Sorted(cs, score));
    forall c ensures c in all <==> exists a :: a in cs && c == ScoreOf(a, score) {
      if c in all { var i :| 0 <= i < |all| && all[i] == c; assert cs[i] in cs; }
      if a :| a in cs && c == ScoreOf(a, score) { var i :| 0 <= i < |cs| && cs[i] == a; assert all[i] == c; }
    }
  }

  lemma {:induction false} SortedRanks(cs: seq<Candidate>, score: nat -> nat, z: Zones)
    requires Members(cs) && ZonesOf(cs, score, z)
    ensures Falling(Sorted(cs, score)) && Labelled(Sorted(cs, score), z) &&
      Ranks(Sorted(cs, score)) == RankSet(cs, score)
  {
    var s := Sorted(cs, score);
    ScoredIff(cs, score);
    S.SortSorted(ScoreAll(cs, score), Higher);
    SortedMembers(cs, score);
    forall i, j | 0 <= i < j < |s| ensures Rank(s[i]) > Rank(s[j]) {
      assert s[i] in s && s[j] in s;
      assert Higher(s[i], s[j]);
      if Rank(s[i]) == Rank(s[j]) { RankInjective(s[i], s[j]); }
    }
  }
}
