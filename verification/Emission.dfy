/** Survivors form a tree, and emission visits each of them exactly once. */
module Emission {
  import opened Options
  import opened Model
  import opened Trees
  import opened Graphs
  import opened PlanSpec
  import S = Sorting

  // ----- parent chains -----------------------------------------------------

  /** The parent chain of n reaches a parentless node in exactly k unblocked steps. */
  ghost predicate Chain(parents: Parents, blocked: set<NodeRef>, n: NodeRef, k: nat)
    decreases k
  {
    && n in parents && n !in blocked
    && (if k == 0 then parents[n].None? else parents[n].Some? && Chain(parents, blocked, parents[n].value, k - 1))
  }

  lemma {:induction false} ChainUnique(parents: Parents, blocked: set<NodeRef>, n: NodeRef, j: nat, k: nat)
    requires Chain(parents, blocked, n, j) && Chain(parents, blocked, n, k)
    ensures j == k
    decreases j
  {
    if j > 0 && k > 0 { ChainUnique(parents, blocked, parents[n].value, j - 1, k - 1); }
  }

  lemma {:induction false} LiveHasChain(parents: Parents, blocked: set<NodeRef>, n: NodeRef, path: set<NodeRef>)
    requires Closed(parents) && n in parents && Walk(parents, blocked, Some(n), path) == Live
    ensures exists k: nat :: Chain(parents, blocked, n, k)
    decreases parents.Keys - path
  {
    if parents[n].None? {
      assert Chain(parents, blocked, n, 0);
    } else {
      LiveHasChain(parents, blocked, parents[n].value, path + {n});
      var k: nat :| Chain(parents, blocked, parents[n].value, k);
      assert Chain(parents, blocked, n, k + 1);
    }
  }

  lemma {:induction false} ChainIsLive(parents: Parents, blocked: set<NodeRef>, n: NodeRef, k: nat, path: set<NodeRef>)
    requires Closed(parents) && Chain(parents, blocked, n, k)
    requires forall m, j: nat :: m in path && j <= k ==> !Chain(parents, blocked, m, j)
    ensures Walk(parents, blocked, Some(n), path) == Live
    decreases k
  {
    if k > 0 {
      forall j: nat | j <= k - 1 ensures !Chain(parents, blocked, n, j) {
        if Chain(parents, blocked, n, j) { ChainUnique(parents, blocked, n, j, k); }
      }
      ChainIsLive(parents, blocked, parents[n].value, k - 1, path + {n});
    }
  }

  // ----- the final structure -----------------------------------------------

  datatype Final = Final(parents: Parents, blocked: set<NodeRef>, children: Children, shells: Shells) {
    ghost predicate IsLive(n: NodeRef) { exists k: nat :: Chain(parents, blocked, n, k) }

    ghost function Depth(n: NodeRef): nat
      requires IsLive(n)
    {
      var k: nat :| Chain(parents, blocked, n, k); k
    }

    /** Child lists of survivors hold exactly their surviving children, once each. */
    ghost predicate ListsOk(p: NodeRef) {
      && p in children && p in shells && S.Distinct(children[p])
      && (forall c :: c in children[p] <==> IsLive(c) && parents[c] == Some(p))
      && (shells[p].text.Some? ==> children[p] == [])
    }

    ghost predicate Shaped() {
      Closed(parents) && forall p :: IsLive(p) ==> ListsOk(p)
    }

    /** Survivors at least as deep as n. */
    ghost function Below(n: NodeRef): set<NodeRef>
      requires IsLive(n)
    {
      set m | m in parents && IsLive(m) && Depth(n) <= Depth(m)
    }
  }

  lemma {:induction false} DepthIs(st: Final, n: NodeRef, k: nat)
    requires Chain(st.parents, st.blocked, n, k)
    ensures st.IsLive(n) && st.Depth(n) == k
  {
    ChainUnique(st.parents, st.blocked, n, st.Depth(n), k);
  }

  lemma {:induction false} ChildDeeper(st: Final, p: NodeRef, c: NodeRef)
    requires st.Shaped() && st.IsLive(p) && c in st.children[p]
    ensures st.IsLive(c) && st.Depth(c) == st.Depth(p) + 1 && st.Below(c) < st.Below(p)
  {
    assert st.ListsOk(p);
    var k := st.Depth(c);
    assert Chain(st.parents, st.blocked, c, k);
    assert k > 0 && Chain(st.parents, st.blocked, p, k - 1);
    DepthIs(st, p, k - 1);
    assert p in st.Below(p) && p !in st.Below(c);
  }

  /** The document under n: leaves show their text, containers their children. */
  function Emit(st: Final, n: NodeRef): Doc
    requires st.Shaped() && st.IsLive(n)
    decreases st.Below(n), 1
  {
    assert st.ListsOk(n);
    Element(st.shells[n], EmitList(st, n, |st.children[n]|))
  }

  function EmitList(st: Final, n: NodeRef, k: nat): (r: seq<Doc>)
    requires st.Shaped() && st.IsLive(n) && k <= |st.children[n]|
    ensures |r| == k
    decreases st.Below(n), 0, k
  {
    if k == 0 then []
    else
      ChildDeeper(st, n, st.children[n][k - 1]);
      EmitList(st, n, k - 1) + [Emit(st, st.children[n][k - 1])]
  }

  /** The order in which nodes are emitted. */
  function Order(st: Final, n: NodeRef): seq<NodeRef>
    requires st.Shaped() && st.IsLive(n)
    decreases st.Below(n), 1
  {
    assert st.ListsOk(n);
    [n] + OrderList(st, n, |st.children[n]|)
  }

  function OrderList(st: Final, n: NodeRef, k: nat): seq<NodeRef>
    requires st.Shaped() && st.IsLive(n) && k <= |st.children[n]|
    decreases st.Below(n), 0, k
  {
    if k == 0 then []
    else
      ChildDeeper(st, n, st.children[n][k - 1]);
      OrderList(st, n, k - 1) + Order(st, st.children[n][k - 1])
  }

  // ----- each survivor once ------------------------------------------------

  /** n is the s-fold parent of m. */
  ghost predicate Descends(st: Final, m: NodeRef, n: NodeRef, s: nat)
    decreases s
  {
    if s == 0 then m == n
    else m in st.parents && st.parents[m].Some? && Descends(st, st.parents[m].value, n, s - 1)
  }

  lemma {:induction false} DescendsUnique(st: Final, m: NodeRef, n: NodeRef, n': NodeRef, s: nat)
    requires Descends(st, m, n, s) && Descends(st, m, n', s)
    ensures n == n'
    decreases s
  {
    if s > 0 { DescendsUnique(st, st.parents[m].value, n, n', s - 1); }
  }

  lemma {:induction false} DescendsStep(st: Final, m: NodeRef, c: NodeRef, n: NodeRef, s: nat)
    requires Descends(st, m, c, s) && c in st.parents && st.parents[c] == Some(n)
    ensures Descends(st, m, n, s + 1)
    decreases s
  {
    if s > 0 { DescendsStep(st, st.parents[m].value, c, n, s - 1); }
  }

  /** What is emitted under n are descendants of n. */
  lemma {:induction false} OrderSound(st: Final, n: NodeRef, m: NodeRef)
    requires st.Shaped() && st.IsLive(n) && m in Order(st, n)
    ensures st.IsLive(m) && st.Depth(n) <= st.Depth(m) && Descends(st, m, n, st.Depth(m) - st.Depth(n))
    decreases st.Below(n), 1
  {
    assert st.ListsOk(n);
    if m != n {
      var i := OrderListSound(st, n, |st.children[n]|, m);
      var c := st.children[n][i];
      ChildDeeper(st, n, c);
      DescendsStep(st, m, c, n, st.Depth(m) - st.Depth(c));
    }
  }

  lemma {:induction false} OrderListSound(st: Final, n: NodeRef, k: nat, m: NodeRef) returns (i: nat)
    requires st.Shaped() && st.IsLive(n) && k <= |st.children[n]| && m in OrderList(st, n, k)
    ensures i < k && st.IsLive(st.children[n][i]) && st.IsLive(m)
    ensures var c := st.children[n][i]; st.Depth(c) <= st.Depth(m) && Descends(st, m, c, st.Depth(m) - st.Depth(c))
    decreases st.Below(n), 0, k
  {
    var c := st.children[n][k - 1];
    ChildDeeper(st, n, c);
    if m in Order(st, c) {
      OrderSound(st, c, m);
      i := k - 1;
    } else {
      i := OrderListSound(st, n, k - 1, m);
    }
  }

  lemma {:induction false} ListHasOrder(st: Final, n: NodeRef, k: nat, i: nat, m: NodeRef)
    requires st.Shaped() && st.IsLive(n) && i < k <= |st.children[n]|
    requires st.IsLive(st.children[n][i]) && m in Order(st, st.children[n][i])
    ensures m in OrderList(st, n, k)
    decreases k
  {
    ChildDeeper(st, n, st.children[n][k - 1]);
    if i < k - 1 { ListHasOrder(st, n, k - 1, i, m); }
  }

  /** The last step before n on the way up from m. */
  lemma {:induction false} TopStep(st: Final, m: NodeRef, n: NodeRef, s: nat) returns (c: NodeRef)
    requires st.Shaped() && st.IsLive(m) && s > 0 && Descends(st, m, n, s)
    ensures st.IsLive(c) && st.parents[c] == Some(n) && Descends(st, m, c, s - 1)
    decreases s
  {
    if s == 1 {
      c := m;
    } else {
      var k := st.Depth(m);
      assert Chain(st.parents, st.blocked, m, k) && k > 0;
      assert Chain(st.parents, st.blocked, st.parents[m].value, k - 1);
      c := TopStep(st, st.parents[m].value, n, s - 1);
    }
  }

  /** Every surviving descendant of n is emitted under n. */
  lemma {:induction false} OrderComplete(st: Final, n: NodeRef, m: NodeRef, s: nat)
    requires st.Shaped() && st.IsLive(n) && st.IsLive(m) && Descends(st, m, n, s)
    ensures m in Order(st, n)
    decreases s
  {
    if s > 0 {
      var c := TopStep(st, m, n, s);
      OrderComplete(st, c, m, s - 1);
      assert st.ListsOk(n) && c in st.children[n];
      var i :| 0 <= i < |st.children[n]| && st.children[n][i] == c;
      ListHasOrder(st, n, |st.children[n]|, i, m);
    }
  }

  /** No node is emitted twice. */
  lemma {:induction false} OrderDistinct(st: Final, n: NodeRef)
    requires st.Shaped() && st.IsLive(n)
    ensures S.Distinct(Order(st, n))
    decreases st.Below(n), 1
  {
    assert st.ListsOk(n);
    var k := |st.children[n]|;
    OrderListDistinct(st, n, k);
    assert n !in OrderList(st, n, k) by {
      if n in OrderList(st, n, k) {
        var i := OrderListSound(st, n, k, n);
        ChildDeeper(st, n, st.children[n][i]);
      }
    }
  }

  lemma {:induction false} OrderListDistinct(st: Final, n: NodeRef, k: nat)
    requires st.Shaped() && st.IsLive(n) && k <= |st.children[n]|
    ensures S.Distinct(OrderList(st, n, k))
    decreases st.Below(n), 0, k
  {
    if k > 0 {
      assert st.ListsOk(n);
      var c := st.children[n][k - 1];
      ChildDeeper(st, n, c);
      OrderListDistinct(st, n, k - 1);
      OrderDistinct(st, c);
      forall m | m in OrderList(st, n, k - 1) && m in Order(st, c) ensures false {
        OrderSound(st, c, m);
        var i := OrderListSound(st, n, k - 1, m);
        var d := st.children[n][i];
        ChildDeeper(st, n, d);
        DescendsUnique(st, m, c, d, st.Depth(m) - st.Depth(c));
      }
      DistinctConcat(OrderList(st, n, k - 1), Order(st, c));
    }
  }

  lemma {:induction false} DistinctConcat(s: seq<NodeRef>, t: seq<NodeRef>)
    requires S.Distinct(s) && S.Distinct(t) && forall x :: x in s ==> x !in t
    ensures S.Distinct(s + t)
  {
    forall i, j | 0 <= i < j < |s + t| ensures (s + t)[i] != (s + t)[j] {
      if i < |s| <= j { assert s[i] in s && (s + t)[j] in t; }
    }
  }

  lemma {:induction false} ChainDescends(st: Final, m: NodeRef, root: NodeRef, k: nat)
    requires Chain(st.parents, st.blocked, m, k)
    requires forall n :: n in st.parents && st.parents[n].None? ==> n == root
    ensures Descends(st, m, root, k)
    decreases k
  {
    if k > 0 { ChainDescends(st, st.parents[m].value, root, k - 1); }
  }

  /** Survivors are exactly the nodes with an unblocked chain to a parentless node. */
  lemma {:induction false} LiveIff(st: Final, m: NodeRef)
    requires Closed(st.parents)
    ensures st.IsLive(m) <==> m in Survivors(st.parents, st.blocked)
  {
    if m in Survivors(st.parents, st.blocked) {
      LiveHasChain(st.parents, st.blocked, m, {});
    }
    if st.IsLive(m) {
      ChainIsLive(st.parents, st.blocked, m, st.Depth(m), {});
    }
  }

  lemma {:induction false} EmittedIff(st: Final, root: NodeRef, m: NodeRef)
    requires st.Shaped() && st.IsLive(root)
    requires forall n :: n in st.parents && st.parents[n].None? ==> n == root
    ensures m in Order(st, root) <==> st.IsLive(m)
  {
    if m in Order(st, root) { OrderSound(st, root, m); }
    if st.IsLive(m) {
      ChainDescends(st, m, root, st.Depth(m));
      OrderComplete(st, root, m, st.Depth(m));
    }
  }

  /** Emission from the root lists exactly the survivors, each once. */
  lemma {:induction false} EmitsSurvivors(st: Final, root: NodeRef)
    requires st.Shaped() && st.IsLive(root)
    requires forall n :: n in st.parents && st.parents[n].None? ==> n == root
    ensures S.Distinct(Order(st, root))
    ensures forall m :: m in Order(st, root) <==> m in Survivors(st.parents, st.blocked)
  {
    OrderDistinct(st, root);
    forall m ensures m in Order(st, root) <==> m in Survivors(st.parents, st.blocked) {
      LiveIff(st, m);
      EmittedIff(st, root, m);
    }
  }
}
