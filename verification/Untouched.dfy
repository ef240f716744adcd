/** Accepting nothing reproduces the base tree, whatever the graph proposes. */
module Untouched {
  import opened Options
  import opened Trees
  import opened Graphs
  import opened PlanSpec
  import opened Emission
  import opened Structure
  import R = Replay

  function Own(a: Tree): seq<NodeRef> {
    seq(|a|, i requires 0 <= i < |a| => A(i))
  }

  function Nothing(l: Loaded, g: Graph): Selection {
    Select(l, g, {})
  }

  lemma {:induction false} NothingChosen(l: Loaded, g: Graph)
    ensures Nothing(l, g).chosen == [] && Nothing(l, g).parents == l.parents && Nothing(l, g).deleted == map[] &&
      Nothing(l, g).Missing() == l.inserts
  {
    NoneChosen(g.changes);
  }

  lemma {:induction false} NoneChosen(changes: seq<Change>)
    ensures Chosen(changes, {}) == []
  {
    if changes != [] { NoneChosen(changes[..|changes| - 1]); }
  }

  lemma {:induction false} BaseFollows(a: Tree, l: Loaded, g: Graph, i: nat)
    requires Validated(a, l, g, {}) && i < |a|
    ensures R.Follows(l.parents, Nothing(l, g).Blocked(), a, Own(a), i)
  {
    NothingChosen(l, g);
    assert BaseNode(a, l, i);
    if i > 0 { assert ParentOk(a, i); }
  }

  lemma {:induction false} BaseSurvives(a: Tree, l: Loaded, g: Graph, i: nat) returns (k: nat)
    requires Validated(a, l, g, {}) && i < |a|
    ensures Chain(l.parents, Nothing(l, g).Blocked(), A(i), k)
  {
    forall z | 0 <= z <= i ensures R.Follows(l.parents, Nothing(l, g).Blocked(), a, Own(a), z) {
      BaseFollows(a, l, g, z);
    }
    k := R.FollowsSurvive(l.parents, Nothing(l, g).Blocked(), a, Own(a), i);
  }

  lemma {:induction false} NoCycles(a: Tree, l: Loaded, g: Graph)
    requires Validated(a, l, g, {}) && Closed(l.parents)
    ensures Nothing(l, g).parents == l.parents && Nothing(l, g).Cycles() == {}
  {
    NothingChosen(l, g);
    var blocked := Nothing(l, g).Blocked();
    forall n | n in l.parents && n !in l.inserts ensures Walk(l.parents, blocked, Some(n), {}) != Cyclic {
      assert n.A? || InsertedNode(l, g.changes, n);
      var k := BaseSurvives(a, l, g, n.i);
      ChainIsLive(l.parents, blocked, n, k, {});
    }
  }

  lemma {:induction false} NothingUnresolved(a: Tree, l: Loaded, g: Graph)
    requires Validated(a, l, g, {}) && ConflictsOk(l, g.explicitConflicts)
    ensures Resolved(a, l, g, {})
  {
    SelectionOk(a, l, g, {});
    NothingChosen(l, g);
    NoCycles(a, l, g);
    var sel := Nothing(l, g);
    assert sel.Conflicting() == {} by {
      forall c | c in g.explicitConflicts ensures !(Elements(c) <= {}) {
        var i :| 0 <= i < |g.explicitConflicts| && g.explicitConflicts[i] == c;
        assert |Elements(c)| >= 2;
      }
    }
  }

  lemma {:induction false} RetainAll(s: seq<NodeRef>, keep: set<NodeRef>)
    requires forall x :: x in s ==> x in keep
    ensures Retain(s, keep) == s
  {
    if s != [] {
      RetainAll(s[..|s| - 1], keep);
      assert s == s[..|s| - 1] + [s[|s| - 1]];
    }
  }

  lemma {:induction false} BaseList(a: Tree, l: Loaded, g: Graph, i: nat)
    requires Validated(a, l, g, {}) && Closed(l.parents) && i < |a|
    ensures A(i) in l.children &&
      Retain(l.children[A(i)], Survivors(l.parents, Nothing(l, g).Blocked())) == ChildRefs(a[i])
  {
    var live := Survivors(l.parents, Nothing(l, g).Blocked());
    assert BaseNode(a, l, i) && ChildrenOk(a, i);
    forall x | x in ChildRefs(a[i]) ensures x in live {
      var j :| 0 <= j < |a[i].children| && ChildRefs(a[i])[j] == x;
      var k := BaseSurvives(a, l, g, a[i].children[j]);
      ChainIsLive(l.parents, Nothing(l, g).Blocked(), x, k, {});
    }
    RetainAll(ChildRefs(a[i]), live);
  }

  lemma {:induction false} BaseShows(a: Tree, l: Loaded, g: Graph, i: nat)
    requires Validated(a, l, g, {}) && Closed(Nothing(l, g).parents) &&
      ShellsCompose(l.shells, Nothing(l, g).chosen) && i < |a|
    ensures R.Shows(FinalOf(l, g, {}), a, Own(a), i)
  {
    NothingChosen(l, g);
    var st := FinalOf(l, g, {});
    assert BaseNode(a, l, i) && ChildrenOk(a, i);
    BaseList(a, l, g, i);
    var live := Survivors(l.parents, Nothing(l, g).Blocked());
    assert live - MovedNodes([]) == live;
    var k := BaseSurvives(a, l, g, i);
    DepthIs(st, A(i), k);
  }

  /** Rejecting everything leaves the base document. */
  lemma {:induction false} AcceptNoneYieldsBase(a: Tree, g: Graph)
    requires WellFormed(a) && GraphOk(a, g, {})
    ensures var l := Load(a, g.changes).value;
            && Resolved(a, l, g, {}) && ShellsCompose(l.shells, Select(l, g, {}).chosen)
            && var st := FinalOf(l, g, {}); st.Shaped() && st.IsLive(ROOT) && Emit(st, ROOT) == ToDoc(a)
  {
    var l := Load(a, g.changes).value;
    GraphOkValidated(a, g, {});
    NothingUnresolved(a, l, g);
    NothingChosen(l, g);
    assert forall n :: PayloadOps([], n) == [];
    ResolvedIsTree(a, l, g, {});
    var st := FinalOf(l, g, {});
    forall i | 0 <= i < |a| ensures R.Shows(st, a, Own(a), i) { BaseShows(a, l, g, i); }
    R.EmitsDoc(st, a, Own(a), 0);
  }
}
