/** Owners are the candidates that score highest, after the first of each zone where they are spread. */
module OwnerRank {
  import opened Options
  import opened Placement
  import opened PlacementLaws
  import opened Rebalance
  import S = Sorting
  import T = TopSets

  /** A higher score, or the same score and a higher node id. */
  predicate Outranks(a: Candidate, b: Candidate, score: nat -> nat) {
    score(a.node) > score(b.node) || (score(a.node) == score(b.node) && a.node > b.node)
  }

  /** The first of its zone. */
  predicate LeadsZone(cs: seq<Candidate>, c: Candidate, score: nat -> nat) {
    c.zone.Some? && forall d :: d in cs && d.zone == c.zone ==> !Outranks(d, c, score)
  }

  lemma {:induction false} RankOrder(a: Candidate, b: Candidate, score: nat -> nat)
    requires a.node < 0x1_0000 && b.node < 0x1_0000
    ensures Outranks(a, b, score) <==> Rank(ScoreOf(a, score)) > Rank(ScoreOf(b, score))
  {}

  lemma {:induction false} LeadsIff(cs: seq<Candidate>, score: nat -> nat, z: Zones, c: Candidate)
    requires Members(cs) && ZonesOf(cs, score, z) && c in cs
    ensures Leads(RankSet(cs, score), z, Rank(ScoreOf(c, score))) <==> LeadsZone(cs, c, score)
  {
    var s, x := RankSet(cs, score), Rank(ScoreOf(c, score));
    forall d | d in cs ensures Outranks(d, c, score) <==> Rank(ScoreOf(d, score)) > x { RankOrder(d, c, score); }
    if LeadsZone(cs, c, score) {
      forall y | y in s && y > x ensures z(y) != z(x) {
        var d :| d in cs && Rank(ScoreOf(d, score)) == y;
      }
    } else if c.zone.Some? {
      var d :| d in cs && d.zone == c.zone && Outranks(d, c, score);
      assert Rank(ScoreOf(d, score)) in s;
    }
  }

  lemma {:induction false} TopOutranks(s: set<nat>, n: nat, x: nat, y: nat)
    requires x in T.Top(s, n) && y in s && y !in T.Top(s, n)
    ensures x > y
  {
    if y > x { S.SubsetSize(T.Above(s, y), T.Above(s, x)); }
  }

  lemma {:induction false} OwnersAbove(s: set<nat>, z: Zones, n: nat, zoneSpread: bool, x: nat, y: nat)
    requires x in Owners(s, z, n, zoneSpread) && y in s && y !in Owners(s, z, n, zoneSpread)
    ensures x > y || (zoneSpread && Leads(s, z, x) && !Leads(s, z, y))
  {
    if zoneSpread {
      var p := Spread(s, z, n);
      T.TopSize(Leaders(s, z), n);
      if x in p {
        if y in Leaders(s, z) { TopOutranks(Leaders(s, z), n, x, y); }
      } else {
        TopOutranks(s - p, n - |p|, x, y);
      }
    } else {
      TopOutranks(s, n, x, y);
    }
  }

  lemma {:induction false} OwnRank(cs: seq<Candidate>, score: nat -> nat, c: Candidate)
    requires c in cs
    ensures Rank(ScoreOf(c, score)) in RankSet(cs, score) && Rank(ScoreOf(c, score)) == RankOf(c.node, score)
  {}

  lemma {:induction false} NodeInRange(cs: seq<Candidate>, c: Candidate)
    requires Members(cs) && c in cs
    ensures c.node < 0x1_0000
  {}

  lemma {:induction false} RanksOutrank(cs: seq<Candidate>, score: nat -> nat, n: nat, zoneSpread: bool, z: Zones,
      c: Candidate, d: Candidate)
    requires Members(cs) && ZonesOf(cs, score, z) && c in cs && d in cs && Rank(ScoreOf(d, score)) in RankSet(cs, score)
    requires Rank(ScoreOf(c, score)) in Owners(RankSet(cs, score), z, n, zoneSpread)
    requires Rank(ScoreOf(d, score)) !in Owners(RankSet(cs, score), z, n, zoneSpread)
    ensures Outranks(c, d, score) || (zoneSpread && LeadsZone(cs, c, score) && !LeadsZone(cs, d, score))
  {
    OwnersAbove(RankSet(cs, score), z, n, zoneSpread, Rank(ScoreOf(c, score)), Rank(ScoreOf(d, score)));
    RankOrder(c, d, score);
    LeadsIff(cs, score, z, c);
    LeadsIff(cs, score, z, d);
  }

  /** No candidate outranks an owner without being one, except the followers of a zone the first of another. */
  lemma {:induction false} OwnersOutrank(cs: seq<Candidate>, score: nat -> nat, n: nat, zoneSpread: bool,
      c: Candidate, d: Candidate)
    requires Members(cs) && c in cs && d in cs
    requires c.node in Nodes(Chosen(cs, score, n, zoneSpread)) && d.node !in Nodes(Chosen(cs, score, n, zoneSpread))
    ensures Outranks(c, d, score) || (zoneSpread && LeadsZone(cs, c, score) && !LeadsZone(cs, d, score))
  {
    var z := ZoneMap(cs, score);
    NodeInRange(cs, c);
    NodeInRange(cs, d);
    ListedByRank(cs, score, n, zoneSpread, z, c.node);
    ListedByRank(cs, score, n, zoneSpread, z, d.node);
    OwnRank(cs, score, c);
    OwnRank(cs, score, d);
    RanksOutrank(cs, score, n, zoneSpread, z, c, d);
  }
}
