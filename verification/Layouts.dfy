/** Placing siblings one by one rebuilds the target's child lists. */
module Layouts {
  import opened Options
  import opened Trees
  import opened Graphs
  import opened PlanSpec
  import C = Classify
  import S = Sorting
  import U = Build

  /** Pairings that name target nodes one-to-one. */
  predicate Names(m: C.Pairing) {
    forall y, z :: 0 <= y < z < |m.b2a| ==> U.BRef(m, y) != U.BRef(m, z)
  }

  predicate InRange(m: C.Pairing, ys: seq<nat>) {
    forall i :: 0 <= i < |ys| ==> ys[i] < |m.b2a|
  }

  function Refs(m: C.Pairing, ys: seq<nat>): (r: seq<NodeRef>)
    requires InRange(m, ys)
    ensures |r| == |ys|
  {
    seq(|ys|, i requires 0 <= i < |ys| => U.BRef(m, ys[i]))
  }

  function FilterIn(ys: seq<nat>, inc: set<nat>): (r: seq<nat>)
    ensures forall i :: 0 <= i < |r| ==> r[i] in ys && r[i] in inc
  {
    if ys == [] then []
    else if ys[0] in inc then [ys[0]] + FilterIn(ys[1..], inc)
    else FilterIn(ys[1..], inc)
  }

  lemma {:induction false} FilterInRange(m: C.Pairing, ys: seq<nat>, inc: set<nat>)
    requires InRange(m, ys)
    ensures InRange(m, FilterIn(ys, inc))
  {
  }

  /** The references of the children that are already in the list. */
  function ListOf(m: C.Pairing, ys: seq<nat>, inc: set<nat>): seq<NodeRef>
    requires InRange(m, ys)
  {
    FilterInRange(m, ys, inc);
    Refs(m, FilterIn(ys, inc))
  }

  lemma {:induction false} FilterConcat(s: seq<nat>, t: seq<nat>, inc: set<nat>)
    ensures FilterIn(s + t, inc) == FilterIn(s, inc) + FilterIn(t, inc)
  {
    if s == [] {
      assert s + t == t;
    } else {
      FilterConcat(s[1..], t, inc);
      assert (s + t)[1..] == s[1..] + t && (s + t)[0] == s[0];
    }
  }

  lemma {:induction false} FilterAll(s: seq<nat>, inc: set<nat>)
    requires forall i :: 0 <= i < |s| ==> s[i] in inc
    ensures FilterIn(s, inc) == s
  {
    if s != [] {
      FilterAll(s[1..], inc);
      assert s == [s[0]] + s[1..];
    }
  }

  lemma {:induction false} FilterSame(s: seq<nat>, inc: set<nat>, inc': set<nat>)
    requires forall i :: 0 <= i < |s| ==> (s[i] in inc <==> s[i] in inc')
    ensures FilterIn(s, inc) == FilterIn(s, inc')
  {
    if s != [] { FilterSame(s[1..], inc, inc'); }
  }

  lemma {:induction false} FilterAscending(s: seq<nat>, inc: set<nat>)
    requires S.Ascending(s)
    ensures S.Ascending(FilterIn(s, inc))
    ensures forall x :: x in FilterIn(s, inc) <==> x in s && x in inc
  {
    if s != [] {
      FilterAscending(s[1..], inc);
      assert s == [s[0]] + s[1..];
      var t := FilterIn(s[1..], inc);
      forall i | 0 <= i < |t| ensures s[0] < t[i] {
        assert t[i] in s[1..];
      }
    }
  }

  /** The list around position j, when everything before it is in place and it is not. */
  lemma {:induction false} SplitAt(ys: seq<nat>, j: nat, inc: set<nat>)
    requires S.Ascending(ys) && j < |ys| && ys[j] !in inc && forall i :: 0 <= i < j ==> ys[i] in inc
    ensures FilterIn(ys, inc) == ys[..j] + FilterIn(ys[j + 1..], inc)
    ensures FilterIn(ys, inc + {ys[j]}) == ys[..j] + [ys[j]] + FilterIn(ys[j + 1..], inc)
  {
    var inc' := inc + {ys[j]};
    assert ys == ys[..j] + ([ys[j]] + ys[j + 1..]);
    FilterConcat(ys[..j], [ys[j]] + ys[j + 1..], inc);
    FilterConcat(ys[..j], [ys[j]] + ys[j + 1..], inc');
    FilterAll(ys[..j], inc);
    FilterAll(ys[..j], inc');
    FilterSame(ys[j + 1..], inc, inc');
    assert ([ys[j]] + ys[j + 1..])[1..] == ys[j + 1..];
  }

  lemma {:induction false} RefsConcat(m: C.Pairing, s: seq<nat>, t: seq<nat>)
    requires InRange(m, s) && InRange(m, t)
    ensures InRange(m, s + t) && Refs(m, s + t) == Refs(m, s) + Refs(m, t)
  {
  }

  lemma {:induction false} RefsDistinct(m: C.Pairing, ys: seq<nat>)
    requires Names(m) && InRange(m, ys) && S.Ascending(ys)
    ensures S.Distinct(Refs(m, ys))
  {
  }

  lemma {:induction false} IndexOfAt(list: seq<NodeRef>, i: nat)
    requires S.Distinct(list) && i < |list|
    ensures IndexOf(list, list[i]) == i
  {
  }

  /** The predecessor of the child at position j. */
  function Pred(m: C.Pairing, ys: seq<nat>, j: nat): Option<NodeRef>
    requires InRange(m, ys) && j < |ys|
  {
    if j == 0 then None else Some(U.BRef(m, ys[j - 1]))
  }

  /** The anchor resolves to the predecessor. */
  lemma {:induction false} ResolvesPred(m: C.Pairing, ys: seq<nat>, j: nat, list: seq<NodeRef>)
    requires InRange(m, ys) && j < |ys| && (j > 0 ==> U.BRef(m, ys[j - 1]) in list)
    ensures Resolve(U.After(m, ys, j), list) == Pred(m, ys, j)
  {
    var after := U.After(m, ys, j);
    if j > 0 { assert after[0] == At(U.BRef(m, ys[j - 1])); }
  }

  lemma {:induction false} ListShape(m: C.Pairing, ys: seq<nat>, j: nat, inc: set<nat>)
    requires InRange(m, ys) && S.Ascending(ys) && j < |ys|
    requires ys[j] !in inc && forall i :: 0 <= i < j ==> ys[i] in inc
    ensures InRange(m, ys[..j]) && InRange(m, FilterIn(ys[j + 1..], inc))
    ensures var front, rest := Refs(m, ys[..j]), Refs(m, FilterIn(ys[j + 1..], inc));
            && ListOf(m, ys, inc) == front + rest
            && ListOf(m, ys, inc + {ys[j]}) == front + [U.BRef(m, ys[j])] + rest
  {
    var rest := FilterIn(ys[j + 1..], inc);
    SplitAt(ys, j, inc);
    FilterInRange(m, ys[j + 1..], inc);
    RefsConcat(m, ys[..j], rest);
    RefsConcat(m, ys[..j], [ys[j]]);
    RefsConcat(m, ys[..j] + [ys[j]], rest);
    assert Refs(m, [ys[j]]) == [U.BRef(m, ys[j])];
  }

  lemma {:induction false} ListDistinct(m: C.Pairing, ys: seq<nat>, inc: set<nat>)
    requires Names(m) && InRange(m, ys) && S.Ascending(ys)
    ensures S.Distinct(ListOf(m, ys, inc))
  {
    FilterInRange(m, ys, inc);
    FilterAscending(ys, inc);
    RefsDistinct(m, FilterIn(ys, inc));
  }

  /** Inserting behind the last element of a front part. */
  lemma {:induction false} InsertBehind(front: seq<NodeRef>, rest: seq<NodeRef>, n: NodeRef)
    requires S.Distinct(front + rest)
    ensures var pred := if front == [] then None else Some(front[|front| - 1]);
            InsertAfter(front + rest, pred, n) == front + [n] + rest
  {
    var list := front + rest;
    if front != [] {
      assert list[|front| - 1] == front[|front| - 1];
      IndexOfAt(list, |front| - 1);
    }
    assert list[..|front|] == front && list[|front|..] == rest;
  }

  /** Placing the child at position j after its predecessor extends the list by it. */
  lemma {:induction false} PlaceStep(m: C.Pairing, ys: seq<nat>, j: nat, inc: set<nat>)
    requires Names(m) && InRange(m, ys) && S.Ascending(ys) && j < |ys|
    requires ys[j] !in inc && forall i :: 0 <= i < j ==> ys[i] in inc
    ensures var list := ListOf(m, ys, inc);
            && Resolve(U.After(m, ys, j), list) == Pred(m, ys, j)
            && InsertAfter(list, Pred(m, ys, j), U.BRef(m, ys[j])) == ListOf(m, ys, inc + {ys[j]})
  {
    var list := ListOf(m, ys, inc);
    ListShape(m, ys, j, inc);
    ListDistinct(m, ys, inc);
    var front, rest := Refs(m, ys[..j]), Refs(m, FilterIn(ys[j + 1..], inc));
    if j > 0 { assert front[j - 1] == U.BRef(m, ys[j - 1]) && list[j - 1] == front[j - 1]; }
    ResolvesPred(m, ys, j, list);
    InsertBehind(front, rest, U.BRef(m, ys[j]));
  }

  // ----- one placement -----------------------------------------------------

  predicate Target(m: C.Pairing, b: Tree) {
    Names(m) && WellFormed(b) && |m.b2a| == |b|
  }

  lemma {:induction false} KidsOk(m: C.Pairing, b: Tree, q: nat)
    requires Target(m, b) && q < |b|
    ensures InRange(m, b[q].children) && S.Ascending(b[q].children)
  {
    assert ChildrenOk(b, q);
  }

  /** The list of q holds its children among `inc`. */
  ghost predicate ListIs(m: C.Pairing, b: Tree, children: Children, inc: set<nat>, q: nat)
    requires Target(m, b) && q < |b|
  {
    KidsOk(m, b, q);
    U.BRef(m, q) in children && children[U.BRef(m, q)] == ListOf(m, b[q].children, inc)
  }

  ghost predicate LaidOut(m: C.Pairing, b: Tree, children: Children, inc: set<nat>)
    requires Target(m, b)
  {
    forall q :: 0 <= q < |b| ==> ListIs(m, b, children, inc, q)
  }

  /** The key under which node y is placed. */
  ghost predicate KeyOf(m: C.Pairing, b: Tree, key: Key, y: nat)
    requires Target(m, b)
  {
    exists q: nat, pos: nat :: IsKeyAt(m, b, key, y, q, pos)
  }

  ghost predicate IsKeyAt(m: C.Pairing, b: Tree, key: Key, y: nat, q: nat, pos: nat)
    requires Target(m, b)
  {
    U.IsChildAt(b, q, pos, y) && (KidsOk(m, b, q); key == (U.BRef(m, q), Pred(m, b[q].children, pos)))
  }

  ghost predicate TailsFrom(m: C.Pairing, b: Tree, tails: map<Key, NodeRef>, done: set<nat>)
    requires Target(m, b)
  {
    forall key :: key in tails ==> exists y :: y in done && KeyOf(m, b, key, y)
  }

  /** Different nodes have different keys. */
  lemma {:induction false} KeyUnique(m: C.Pairing, b: Tree, key: Key, y: nat, z: nat)
    requires Target(m, b) && KeyOf(m, b, key, y) && KeyOf(m, b, key, z)
    ensures y == z
  {
    var q: nat, j: nat :| IsKeyAt(m, b, key, y, q, j);
    var r: nat, k: nat :| IsKeyAt(m, b, key, z, r, k);
    assert q == r;
    KidsOk(m, b, q);
    if j != 0 && k != 0 { assert b[q].children[j - 1] == b[q].children[k - 1]; }
    assert j == k;
  }

  lemma {:induction false} PlaceOneOk(m: C.Pairing, b: Tree, layout: Layout, inc: set<nat>, done: set<nat>, op: Op,
      y: nat, q: nat, pos: nat)
    requires Target(m, b) && LaidOut(m, b, layout.children, inc) && TailsFrom(m, b, layout.tails, done)
    requires U.IsChildAt(b, q, pos, y) && y < |b| && y !in inc && y !in done
    requires forall i :: 0 <= i < pos ==> b[q].children[i] in inc
    requires op.IsPlacement() && op.node == U.BRef(m, y) && op.parent == U.BRef(m, q)
    requires InRange(m, b[q].children) && op.after == U.After(m, b[q].children, pos)
    ensures LaidOut(m, b, PlaceOne(layout, op).children, inc + {y})
    ensures TailsFrom(m, b, PlaceOne(layout, op).tails, done + {y})
  {
    var kids := b[q].children;
    KidsOk(m, b, q);
    assert ListIs(m, b, layout.children, inc, q);
    PlaceStep(m, kids, pos, inc);
    var list := layout.children[op.parent];
    var key: Key := (op.parent, Pred(m, kids, pos));
    assert IsKeyAt(m, b, key, y, q, pos) && KeyOf(m, b, key, y);
    assert key !in layout.tails by {
      if key in layout.tails {
        var z :| z in done && KeyOf(m, b, key, z);
        KeyUnique(m, b, key, y, z);
      }
    }
    var out := PlaceOne(layout, op);
    assert out.children == layout.children[op.parent := ListOf(m, kids, inc + {y})];
    assert out.tails == layout.tails[key := op.node];
    forall r | 0 <= r < |b| ensures ListIs(m, b, out.children, inc + {y}, r) {
      assert ListIs(m, b, layout.children, inc, r);
      KidsOk(m, b, r);
      if r != q { OtherList(m, b, inc, y, q, r, pos); }
    }
    forall k | k in out.tails ensures exists z :: z in done + {y} && KeyOf(m, b, k, z) {
      if k != key {
        var z :| z in done && KeyOf(m, b, k, z);
        assert z in done + {y};
      }
    }
  }

  /** Lists of other parents do not mention y. */
  lemma {:induction false} OtherList(m: C.Pairing, b: Tree, inc: set<nat>, y: nat, q: nat, r: nat, pos: nat)
    requires Target(m, b) && U.IsChildAt(b, q, pos, y) && r < |b| && r != q && InRange(m, b[r].children)
    ensures ListOf(m, b[r].children, inc + {y}) == ListOf(m, b[r].children, inc)
  {
    assert ChildrenOk(b, q) && ChildrenOk(b, r);
    FilterSame(b[r].children, inc, inc + {y});
  }

  // ----- the retained lists ------------------------------------------------

  function BaseRefs(cs: seq<nat>): seq<NodeRef> {
    seq(|cs|, i requires 0 <= i < |cs| => A(cs[i]))
  }

  lemma {:induction false} RetainIsFilter(cs: seq<nat>, keep: set<NodeRef>, inc: set<nat>)
    requires forall i :: 0 <= i < |cs| ==> (cs[i] in inc <==> A(cs[i]) in keep)
    ensures Retain(BaseRefs(cs), keep) == BaseRefs(FilterIn(cs, inc))
  {
    if cs != [] {
      var n := |cs| - 1;
      RetainIsFilter(cs[..n], keep, inc);
      assert BaseRefs(cs)[..n] == BaseRefs(cs[..n]);
      assert cs == cs[..n] + [cs[n]];
      FilterConcat(cs[..n], [cs[n]], inc);
      assert FilterIn([cs[n]], inc) == if cs[n] in inc then [cs[n]] else [] by { assert [cs[n]][1..] == []; }
    }
  }

  function Partners(m: C.Pairing, cs: seq<nat>): seq<nat>
    requires forall i :: 0 <= i < |cs| ==> cs[i] < |m.a2b| && m.a2b[cs[i]].Some?
  {
    seq(|cs|, i requires 0 <= i < |cs| => m.a2b[cs[i]].value)
  }
}
