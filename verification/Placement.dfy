/**
 * Rendezvous placement of a partition: owners are the candidates of highest
 * score, optionally spread over failure zones in a first pass.
 */
module Placement {
  import opened Options
  import S = Sorting

  datatype Candidate = Candidate(node: nat, active: bool, zone: Option<string>)

  datatype Scored = Scored(score: nat, node: nat, zone: Option<string>)

  /** A position in the order by score, then node id. */
  function Rank(c: Scored): nat {
    c.score * 0x1_0000 + c.node
  }

  predicate Higher(a: Scored, b: Scored) {
    Rank(a) >= Rank(b)
  }

  /** A candidate with the score of its node for the partition at hand. */
  function ScoreOf(c: Candidate, score: nat -> nat): Scored {
    Scored(score(c.node), c.node, c.zone)
  }

  function ScoreAll(cs: seq<Candidate>, score: nat -> nat): (r: seq<Scored>)
    ensures |r| == |cs| && forall i :: 0 <= i < |cs| ==> r[i] == ScoreOf(cs[i], score)
  {
    if cs == [] then [] else [ScoreOf(cs[0], score)] + ScoreAll(cs[1..], score)
  }

  /** Candidates are members: one per node id. */
  predicate Members(cs: seq<Candidate>) {
    && (forall i :: 0 <= i < |cs| ==> cs[i].node < 0x1_0000)
    && (forall i, j :: 0 <= i < j < |cs| ==> cs[i].node != cs[j].node)
  }

  function Nodes(s: seq<Scored>): (r: seq<nat>)
    ensures |r| == |s| && forall i :: 0 <= i < |s| ==> r[i] == s[i].node
  {
    if s == [] then [] else [s[0].node] + Nodes(s[1..])
  }

  // ----- the two passes ----------------------------------------------------

  datatype Picked = Picked(out: seq<Scored>, used: seq<string>)

  /** First pass: a candidate is taken when its zone is not represented yet. */
  function ZonePass(sorted: seq<Scored>, n: nat): Picked {
    if sorted == [] then Picked([], [])
    else
      var p, c := ZonePass(sorted[..|sorted| - 1], n), sorted[|sorted| - 1];
      if |p.out| != n && c.zone.Some? && c.zone.value !in p.used then Picked(p.out + [c], p.used + [c.zone.value])
      else p
  }

  /** Second pass: remaining slots go by rank. */
  function FillPass(sorted: seq<Scored>, n: nat, out: seq<Scored>): seq<Scored> {
    if sorted == [] then out
    else
      var p, c := FillPass(sorted[..|sorted| - 1], n, out), sorted[|sorted| - 1];
      if |p| != n && c !in p then p + [c] else p
  }

  function Sorted(cs: seq<Candidate>, score: nat -> nat): seq<Scored> {
    S.Sort(ScoreAll(cs, score), Higher)
  }

  function Truncate(s: seq<Scored>, n: nat): seq<Scored> {
    if |s| <= n then s else s[..n]
  }

  function Chosen(cs: seq<Candidate>, score: nat -> nat, n: nat, zoneSpread: bool): seq<Scored> {
    var sorted := Sorted(cs, score);
    if zoneSpread then FillPass(sorted, n, ZonePass(sorted, n).out) else Truncate(sorted, n)
  }

  // ----- the loops ---------------------------------------------------------

  /** Once the slots are full the first pass takes nothing more. */
  lemma {:induction false} ZonePassStops(sorted: seq<Scored>, n: nat, i: nat)
    requires i <= |sorted| && |ZonePass(sorted[..i], n).out| == n
    ensures ZonePass(sorted, n) == ZonePass(sorted[..i], n)
    decreases |sorted|
  {
    if i < |sorted| {
      var front := sorted[..|sorted| - 1];
      assert front[..i] == sorted[..i];
      ZonePassStops(front, n, i);
    } else {
      assert sorted[..i] == sorted;
    }
  }

  lemma {:induction false} FillPassStops(sorted: seq<Scored>, n: nat, out: seq<Scored>, i: nat)
    requires i <= |sorted| && |FillPass(sorted[..i], n, out)| == n
    ensures FillPass(sorted, n, out) == FillPass(sorted[..i], n, out)
    decreases |sorted|
  {
    if i < |sorted| {
      var front := sorted[..|sorted| - 1];
      assert front[..i] == sorted[..i];
      FillPassStops(front, n, out, i);
    } else {
      assert sorted[..i] == sorted;
    }
  }

  ghost predicate OneEach(s: seq<Scored>) {
    forall i, j :: 0 <= i < j < |s| ==> s[i].node != s[j].node
  }

  lemma {:induction false} ZonePassFrom(sorted: seq<Scored>, n: nat)
    ensures forall c :: c in ZonePass(sorted, n).out ==> c in sorted
  {
    if sorted != [] { ZonePassFrom(sorted[..|sorted| - 1], n); }
  }

  lemma {:induction false} FillPassFrom(sorted: seq<Scored>, n: nat, out: seq<Scored>)
    ensures forall c :: c in FillPass(sorted, n, out) ==> c in sorted || c in out
  {
    if sorted != [] { FillPassFrom(sorted[..|sorted| - 1], n, out); }
  }

  /** Among members, a node id is listed exactly when its candidate is. */
  lemma {:induction false} ListedIff(out: seq<Scored>, sorted: seq<Scored>, c: Scored)
    requires OneEach(sorted) && c in sorted && forall x :: x in out ==> x in sorted
    ensures c.node in Nodes(out) <==> c in out
  {
    if c.node in Nodes(out) {
      var i :| 0 <= i < |out| && Nodes(out)[i] == c.node;
      assert out[i] in sorted;
      var a :| 0 <= a < |sorted| && sorted[a] == out[i];
      var b :| 0 <= b < |sorted| && sorted[b] == c;
    }
    if c in out {
      var i :| 0 <= i < |out| && out[i] == c;
      assert Nodes(out)[i] == c.node;
    }
  }

  lemma {:induction false} NodesSnoc(out: seq<Scored>, c: Scored)
    ensures Nodes(out + [c]) == Nodes(out) + [c.node]
  {}

  method PickByZone(sorted: seq<Scored>, n: nat) returns (out: seq<nat>)
    ensures out == Nodes(ZonePass(sorted, n).out)
  {
    out := [];
    var used: seq<string> := [];
    for i := 0 to |sorted|
      invariant out == Nodes(ZonePass(sorted[..i], n).out) && used == ZonePass(sorted[..i], n).used
    {
      if |out| == n {
        ZonePassStops(sorted, n, i);
        return;
      }
      assert sorted[..i + 1][..i] == sorted[..i];
      if sorted[i].zone.Some? && sorted[i].zone.value !in used {
        NodesSnoc(ZonePass(sorted[..i], n).out, sorted[i]);
        used := used + [sorted[i].zone.value];
        out := out + [sorted[i].node];
      }
    }
    assert sorted[..|sorted|] == sorted;
  }

  method FillByRank(sorted: seq<Scored>, n: nat, first: seq<nat>, ghost picked: seq<Scored>) returns (out: seq<nat>)
    requires OneEach(sorted) && first == Nodes(picked) && forall x :: x in picked ==> x in sorted
    ensures out == Nodes(FillPass(sorted, n, picked))
  {
    out := first;
    for i := 0 to |sorted|
      invariant out == Nodes(FillPass(sorted[..i], n, picked))
    {
      if |out| == n {
        FillPassStops(sorted, n, picked, i);
        return;
      }
      assert sorted[..i + 1][..i] == sorted[..i];
      ghost var p := FillPass(sorted[..i], n, picked);
      FillPassFrom(sorted[..i], n, picked);
      ListedIff(p, sorted, sorted[i]);
      if sorted[i].node !in out {
        NodesSnoc(p, sorted[i]);
        out := out + [sorted[i].node];
      }
    }
    assert sorted[..|sorted|] == sorted;
  }

  lemma {:induction false} SortedMembers(cs: seq<Candidate>, score: nat -> nat)
    requires Members(cs)
    ensures OneEach(Sorted(cs, score))
  {
    var a, b := ScoreAll(cs, score), Sorted(cs, score);
    S.SameElements(a, b);
    forall i, j | 0 <= i < j < |b| ensures b[i].node != b[j].node {
      assert b[i] in a && b[j] in a && b[i] != b[j];
    }
  }

  /** Owners of a partition, given the score of every node for it. */
  method OwnersForZoned(cs: seq<Candidate>, score: nat -> nat, n: nat, zoneSpread: bool) returns (owners: seq<nat>)
    requires Members(cs)
    ensures owners == Nodes(Chosen(cs, score, n, zoneSpread))
  {
    var sorted := Sorted(cs, score);
    if !zoneSpread {
      return Nodes(Truncate(sorted, n));
    }
    var first := PickByZone(sorted, n);
    SortedMembers(cs, score);
    ZonePassFrom(sorted, n);
    owners := FillByRank(sorted, n, first, ZonePass(sorted, n).out);
  }
}
