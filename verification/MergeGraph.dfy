/**
 * Three-way merging of change graphs: the union of both sides' operations, who
 * proposed each, which pairs clash, and what merging with an unchanged side gives.
 */
module MergeGraphs {
  import opened Trees
  import opened Graphs
  import M = Matchings
  import P = Planner
  import R = Replay
  import S = Sorting
  import T = TextDiff
  import U = Build
  import Diff

  datatype Side = Left | Right | Both

  /** The operations of both sides, each once and in order, and who proposed them. */
  datatype Union = Union(ops: seq<Op>, origins: map<Op, Side>)

  const NOTHING := Union([], map[])

  function Add(u: Union, op: Op, side: Side): Union {
    if op in u.origins then u.(origins := u.origins[op := Both])
    else Union(u.ops + [op], u.origins[op := side])
  }

  function AddAll(u: Union, ops: seq<Op>, side: Side): Union {
    if ops == [] then u else Add(AddAll(u, ops[..|ops| - 1], side), ops[|ops| - 1], side)
  }

  function Combined(l: seq<Op>, r: seq<Op>): Union {
    AddAll(AddAll(NOTHING, l, Left), r, Right)
  }

  method AddSide(u: Union, ops: seq<Op>, side: Side) returns (r: Union)
    ensures r == AddAll(u, ops, side)
  {
    r := u;
    for i := 0 to |ops|
      invariant r == AddAll(u, ops[..i], side)
    {
      assert ops[..i + 1][..i] == ops[..i];
      r := Add(r, ops[i], side);
    }
    assert ops[..|ops|] == ops;
  }

  /** Every operation of the union is listed once. */
  ghost predicate Listed(u: Union) {
    S.Distinct(u.ops) && forall op :: op in u.ops <==> op in u.origins
  }

  lemma {:induction false} AddListed(u: Union, op: Op, side: Side)
    requires Listed(u)
    ensures Listed(Add(u, op, side))
  {}

  lemma {:induction false} AddAllListed(u: Union, ops: seq<Op>, side: Side)
    requires Listed(u)
    ensures Listed(AddAll(u, ops, side))
    ensures forall op :: op in AddAll(u, ops, side).ops <==> op in u.ops || op in ops
  {
    if ops != [] {
      var front, last := ops[..|ops| - 1], ops[|ops| - 1];
      AddAllListed(u, front, side);
      AddListed(AddAll(u, front, side), last, side);
      assert ops == front + [last];
    }
  }

  lemma {:induction false} AddAllOrigins(u: Union, ops: seq<Op>, side: Side, op: Op)
    requires Listed(u) && S.Distinct(ops)
    ensures var r := AddAll(u, ops, side);
      && (op in u.origins && op in ops ==> op in r.origins && r.origins[op] == Both)
      && (op in u.origins && op !in ops ==> op in r.origins && r.origins[op] == u.origins[op])
      && (op !in u.origins && op in ops ==> op in r.origins && r.origins[op] == side)
      && (op !in u.origins && op !in ops ==> op !in r.origins)
  {
    if ops != [] {
      var front, last := ops[..|ops| - 1], ops[|ops| - 1];
      assert ops == front + [last] && forall i :: 0 <= i < |front| ==> front[i] == ops[i];
      AddAllOrigins(u, front, side, op);
      AddAllListed(u, front, side);
      assert last !in front;
    }
  }

  /** The union holds exactly the operations of either side, each once, marked with the sides that propose it. */
  lemma {:induction false} UnionMeaning(l: seq<Op>, r: seq<Op>, op: Op)
    requires S.Distinct(l) && S.Distinct(r)
    ensures var u := Combined(l, r);
      && Listed(u) && (op in u.ops <==> op in l || op in r)
      && (op in l && op in r ==> op in u.origins && u.origins[op] == Both)
      && (op in l && op !in r ==> op in u.origins && u.origins[op] == Left)
      && (op !in l && op in r ==> op in u.origins && u.origins[op] == Right)
  {
    var left := AddAll(NOTHING, l, Left);
    AddAllListed(NOTHING, l, Left);
    AddAllListed(left, r, Right);
    AddAllOrigins(NOTHING, l, Left, op);
    AddAllOrigins(left, r, Right, op);
  }

  // ----- clashes -----------------------------------------------------------

  /** Whether a pair of operations on one node comes from different sides. */
  predicate Across(u: Union, a: Op, b: Op) {
    a.node == b.node && a in u.origins && b in u.origins && !(u.origins[a] != Both && u.origins[a] == u.origins[b])
  }

  /** The pairs of changes, one from each side, that the test rejects. */
  function Clashes(u: Union, clash: (Op, Op) -> bool): set<set<ChangeId>> {
    set i, j | 0 <= i < j < |u.ops| && Across(u, u.ops[i], u.ops[j]) && clash(u.ops[i], u.ops[j]) ::
      {Digest(u.ops[i]), Digest(u.ops[j])}
  }

  /** The clashes whose first member is among the first n, or is the n-th with its second below m. */
  ghost predicate FoundUpTo(u: Union, clash: (Op, Op) -> bool, n: nat, m: nat, groups: set<set<ChangeId>>) {
    && n <= |u.ops| && m <= |u.ops|
    && groups == set i, j | 0 <= i < j < |u.ops| && (i < n || (i == n && j < m)) &&
                            Across(u, u.ops[i], u.ops[j]) && clash(u.ops[i], u.ops[j]) ::
                   {Digest(u.ops[i]), Digest(u.ops[j])}
  }

  lemma {:induction false} FoundNext(u: Union, clash: (Op, Op) -> bool, n: nat, m: nat, groups: set<set<ChangeId>>)
    requires FoundUpTo(u, clash, n, m, groups) && n < m < |u.ops|
    ensures var pair := {Digest(u.ops[n]), Digest(u.ops[m])};
      FoundUpTo(u, clash, n, m + 1,
        if Across(u, u.ops[n], u.ops[m]) && clash(u.ops[n], u.ops[m]) then groups + {pair} else groups)
  {}

  lemma {:induction false} FoundRow(u: Union, clash: (Op, Op) -> bool, n: nat, groups: set<set<ChangeId>>)
    requires n < |u.ops|
    ensures FoundUpTo(u, clash, n, |u.ops|, groups) <==> FoundUpTo(u, clash, n + 1, 0, groups)
    ensures FoundUpTo(u, clash, n, 0, groups) <==> FoundUpTo(u, clash, n, n + 1, groups)
  {}

  lemma {:induction false} FoundNone(u: Union, clash: (Op, Op) -> bool)
    ensures FoundUpTo(u, clash, 0, 0, {})
  {}

  lemma {:induction false} FoundAll(u: Union, clash: (Op, Op) -> bool, groups: set<set<ChangeId>>)
    requires FoundUpTo(u, clash, |u.ops|, 0, groups)
    ensures groups == Clashes(u, clash)
  {}

  /** The clashes of the i-th operation with later ones, added to those found before. */
  method ClashesOf(u: Union, clash: (Op, Op) -> bool, i: nat, found: set<set<ChangeId>>)
    returns (groups: set<set<ChangeId>>)
    requires i < |u.ops| && FoundUpTo(u, clash, i, 0, found)
    ensures FoundUpTo(u, clash, i + 1, 0, groups)
  {
    groups := found;
    FoundRow(u, clash, i, groups);
    for j := i + 1 to |u.ops|
      invariant FoundUpTo(u, clash, i, j, groups)
    {
      FoundNext(u, clash, i, j, groups);
      if Across(u, u.ops[i], u.ops[j]) && clash(u.ops[i], u.ops[j]) {
        groups := groups + {{Digest(u.ops[i]), Digest(u.ops[j])}};
      }
    }
    FoundRow(u, clash, i, groups);
  }

  method FindClashes(u: Union, clash: (Op, Op) -> bool) returns (groups: set<set<ChangeId>>)
    ensures groups == Clashes(u, clash)
  {
    groups := {};
    FoundNone(u, clash);
    for i := 0 to |u.ops|
      invariant FoundUpTo(u, clash, i, 0, groups)
    {
      groups := ClashesOf(u, clash, i, groups);
    }
    FoundAll(u, clash, groups);
  }

  // ----- a side that changed nothing ---------------------------------------

  lemma {:induction false} AddDistinct(ops: seq<Op>, side: Side)
    requires S.Distinct(ops)
    ensures AddAll(NOTHING, ops, side).ops == ops
  {
    if ops != [] {
      var front, last := ops[..|ops| - 1], ops[|ops| - 1];
      assert ops == front + [last] && forall i :: 0 <= i < |front| ==> front[i] == ops[i];
      AddDistinct(front, side);
      AddAllOrigins(NOTHING, front, side, last);
    }
  }

  /** Merged with no changes, the changes of a side stay as they are and clash with nothing. */
  lemma {:induction false} UnchangedSide(ops: seq<Op>, clash: (Op, Op) -> bool)
    requires S.Distinct(ops)
    ensures Combined(ops, []).ops == ops && Clashes(Combined(ops, []), clash) == {}
    ensures Combined([], ops).ops == ops && Clashes(Combined([], ops), clash) == {}
  {
    AddDistinct(ops, Left);
    AddDistinct(ops, Right);
    OneSided(ops, Left, clash);
    OneSided(ops, Right, clash);
  }

  lemma {:induction false} OneSided(ops: seq<Op>, side: Side, clash: (Op, Op) -> bool)
    requires S.Distinct(ops) && side != Both
    ensures Clashes(AddAll(NOTHING, ops, side), clash) == {}
  {
    var u := AddAll(NOTHING, ops, side);
    AddAllListed(NOTHING, ops, side);
    forall i, j | 0 <= i < j < |u.ops| ensures !Across(u, u.ops[i], u.ops[j]) {
      assert u.ops[i] in ops && u.ops[j] in ops;
      AddAllOrigins(NOTHING, ops, side, u.ops[i]);
      AddAllOrigins(NOTHING, ops, side, u.ops[j]);
    }
  }

  function OpsOf(changes: seq<Change>): seq<Op> {
    seq(|changes|, i requires 0 <= i < |changes| => changes[i].op)
  }

  lemma {:induction false} BuiltOps(s: R.Case)
    requires s.Ok()
    ensures S.Distinct(s.ops) && OpsOf(U.Changes(s.ops)) == s.ops
  {
    forall i, j | 0 <= i < j < |s.ops| ensures s.ops[i] != s.ops[j] { R.OpsDistinct(s, i, j); }
  }

  method PlanEverything(a: Tree, ops: seq<Op>, ghost s: R.Case) returns (r: P.Plan)
    requires s.Ok() && a == s.a && ops == s.ops
    ensures r.Ok? && r.doc == ToDoc(s.b)
  {
    P.AcceptAll(s);
    r := P.MakePlan(a, U.GraphOf(a, ops), set op | op in ops :: Digest(op));
  }

  /** Combine two lists of operations and find the clashes. */
  method Merge(l: seq<Op>, r: seq<Op>, clash: (Op, Op) -> bool) returns (u: Union, groups: set<set<ChangeId>>)
    ensures u == Combined(l, r) && groups == Clashes(u, clash)
  {
    u := AddSide(NOTHING, l, Left);
    u := AddSide(u, r, Right);
    groups := FindClashes(u, clash);
  }

  /**
   * Merging a changed document with the unchanged base, on either side and for
   * any test of clashes, finds no conflict, and accepting everything gives the
   * changed document.
   */
  method MergeWithBase(a: Tree, b: Tree, h: Diff.Hints, level: T.Level, maxNd: nat, right: bool, clash: (Op,
      Op) -> bool)
    returns (groups: set<set<ChangeId>>, r: P.Plan)
    requires WellFormed(a) && WellFormed(b) && Diff.HintsFor(h, a, b)
    ensures groups == {} && r.Ok? && r.doc == ToDoc(b)
  {
    var m := M.MatchTrees(a, b, h.ea, h.eb, h.near, h.align);
    var g, moved, ord, raws, ops := U.Build(a, b, m, level, maxNd);
    ghost var s := R.Case(a, b, m, ord, moved, raws, ops);
    var none := Diff.DiffWithItself(a, h.ea, h.near, h.align, level, maxNd);
    BuiltOps(s);
    UnchangedSide(s.ops, clash);
    var union;
    if right {
      union, groups := Merge(OpsOf(none.changes), OpsOf(g.changes), clash);
    } else {
      union, groups := Merge(OpsOf(g.changes), OpsOf(none.changes), clash);
    }
    r := PlanEverything(a, union.ops, s);
  }
}
