/** The stack loop that lists an array in document order, and how the order reacts to its input. */
module RgaWalk {
  import opened Rga
  import opened RgaLaws
  import S = Sorting

  // ----- the stack ---------------------------------------------------------

  ghost predicate AllReach(es: seq<Elem>, stack: seq<Item>) {
    forall i :: i in stack ==> Reachable(es, i.eid)
  }

  /** What a stack, top last, still has to emit. */
  ghost function Flat(es: seq<Elem>, stack: seq<Item>): seq<Item>
    requires Wf(es) && AllReach(es, stack)
  {
    if stack == [] then []
    else Block(es, stack[|stack| - 1]) + Flat(es, stack[..|stack| - 1])
  }

  lemma {:induction false} ListIsFlat(es: seq<Elem>, id: nat, kids: seq<Item>)
    requires Wf(es) && Under(es, kids, id)
    ensures BelowList(es, id, kids) == Flat(es, kids)
  {
    if kids != [] { ListIsFlat(es, id, kids[..|kids| - 1]); }
  }

  lemma {:induction false} BelowIsFlat(es: seq<Elem>, id: nat)
    requires Wf(es) && Reachable(es, id)
    ensures AllReach(es, Kids(es, id)) && Below(es, id) == Flat(es, Kids(es, id))
  {
    KidsUnder(es, id);
    ListIsFlat(es, id, Kids(es, id));
  }

  lemma {:induction false} Regroup(a: seq<Item>, b: seq<Item>, c: seq<Item>)
    ensures a + b + c == a + (b + c)
  {}

  lemma {:induction false} FlatTop(es: seq<Elem>, stack: seq<Item>)
    requires Wf(es) && AllReach(es, stack) && stack != []
    ensures Reachable(es, stack[|stack| - 1].eid) && AllReach(es, stack[..|stack| - 1])
    ensures Flat(es, stack) == Block(es, stack[|stack| - 1]) + Flat(es, stack[..|stack| - 1])
  {}

  lemma {:induction false} FlatAppend(es: seq<Elem>, below: seq<Item>, top: seq<Item>)
    requires Wf(es) && AllReach(es, below) && AllReach(es, top)
    ensures AllReach(es, below + top) && Flat(es, below + top) == Flat(es, top) + Flat(es, below)
  {
    var s := below + top;
    if top == [] {
      assert s == below;
    } else {
      var front, last := top[..|top| - 1], top[|top| - 1];
      FlatAppend(es, below, front);
      assert s[|s| - 1] == last && s[..|s| - 1] == below + front;
      assert AllReach(es, s);
      FlatTop(es, s);
      FlatTop(es, top);
      Regroup(Block(es, last), Flat(es, front), Flat(es, below));
    }
  }

  // ----- the loop ----------------------------------------------------------

  function Lookup(m: map<nat, seq<Item>>, a: nat): seq<Item> {
    if a in m then m[a] else []
  }

  method Children(es: seq<Elem>) returns (children: map<nat, seq<Item>>)
    ensures forall a :: Lookup(children, a) == Kids(es, a)
  {
    var present := Present(es);
    children := map[];
    for i := 0 to |es|
      invariant forall a :: Lookup(children, a) == Hanging(es[..i], present, a)
    {
      assert es[..i + 1][..i] == es[..i];
      var anchor := Anchor(present, es[i]);
      children := children[anchor := Lookup(children, anchor) + [Item(es[i].eid, es[i].live)]];
    }
    assert es[..|es|] == es;
    children := map a | a in children :: S.Sort(children[a], Older);
  }

  lemma {:induction false} Popped(es: seq<Elem>, out: seq<Item>, stack: seq<Item>)
    requires Wf(es) && AllReach(es, stack) && stack != [] && Order(es) == out + Flat(es, stack)
    ensures var top := stack[|stack| - 1];
      top.eid != HEAD && forall i :: i in out ==> i.eid != top.eid
  {
    var top := stack[|stack| - 1];
    var order := Order(es);
    HeadReachable(es);
    BelowOnce(es, HEAD);
    assert order[|out|] == top;
    BelowIff(es, HEAD, top);
    assert top in order;
    forall i | i in out ensures i.eid != top.eid {
      var j :| 0 <= j < |out| && out[j] == i;
      assert order[j] == i;
    }
  }

  lemma {:induction false} PushKids(es: seq<Elem>, stack: seq<Item>)
    requires Wf(es) && AllReach(es, stack) && stack != []
    ensures var front, top := stack[..|stack| - 1], stack[|stack| - 1];
      AllReach(es, front + Kids(es, top.eid)) && Flat(es, stack) == [top] + Flat(es, front + Kids(es, top.eid))
  {
    var front, top := stack[..|stack| - 1], stack[|stack| - 1];
    FlatTop(es, stack);
    BelowIsFlat(es, top.eid);
    FlatAppend(es, front, Kids(es, top.eid));
    Regroup([top], Below(es, top.eid), Flat(es, front));
  }

  /** Emitted so far, still to emit, and the child lists of everything not visited yet. */
  ghost predicate Walking(es: seq<Elem>, out: seq<Item>, stack: seq<Item>, children: map<nat, seq<Item>>) {
    && Wf(es) && AllReach(es, stack) && Order(es) == out + Flat(es, stack)
    && forall a :: a != HEAD && Unvisited(out, a) ==> Lookup(children, a) == Kids(es, a)
  }

  predicate Unvisited(out: seq<Item>, a: nat) {
    forall i :: i in out ==> i.eid != a
  }

  lemma {:induction false} WalkStep(es: seq<Elem>, out: seq<Item>, stack: seq<Item>, children: map<nat, seq<Item>>)
    requires Walking(es, out, stack, children) && stack != []
    ensures var top := stack[|stack| - 1];
      && Walking(es, out + [top], stack[..|stack| - 1] + Lookup(children, top.eid), children - {top.eid})
      && |out| < |Order(es)|
  {
    var front, top := stack[..|stack| - 1], stack[|stack| - 1];
    Popped(es, out, stack);
    PushKids(es, stack);
    Regroup(out, [top], Flat(es, front + Kids(es, top.eid)));
    forall a | a != HEAD && Unvisited(out + [top], a) ensures Lookup(children - {top.eid}, a) == Kids(es, a) {
      assert top in out + [top];
      assert Unvisited(out, a);
    }
  }

  lemma {:induction false} OrderIsFlat(es: seq<Elem>)
    requires Wf(es)
    ensures AllReach(es, Kids(es, HEAD)) && Order(es) == Flat(es, Kids(es, HEAD))
  {
    HeadReachable(es);
    BelowIsFlat(es, HEAD);
  }

  lemma {:induction false} WalkStart(es: seq<Elem>, children: map<nat, seq<Item>>, stack: seq<Item>)
    requires Wf(es) && AllReach(es, stack) && Order(es) == Flat(es, stack)
    requires forall a :: Lookup(children, a) == Kids(es, a)
    ensures Walking(es, [], stack, children - {HEAD})
  {
    Regroup([], [], Flat(es, stack));
    forall a | a != HEAD ensures Lookup(children - {HEAD}, a) == Kids(es, a) {
      assert Lookup(children, a) == Kids(es, a);
    }
  }

  lemma {:induction false} WalkEnd(es: seq<Elem>, out: seq<Item>, children: map<nat, seq<Item>>)
    requires Walking(es, out, [], children)
    ensures out == Order(es)
  {
    assert out + Flat(es, []) == out;
  }

  /** The stack loop emits the recursive order. */
  method RgaOrder(es: seq<Elem>) returns (out: seq<Item>)
    requires Wf(es)
    ensures out == Order(es)
  {
    var children: map<nat, seq<Item>> := Children(es);
    OrderIsFlat(es);
    WalkStart(es, children, Lookup(children, HEAD));
    ghost var total := |Order(es)|;
    out := [];
    var stack := Lookup(children, HEAD);
    children := children - {HEAD};
    while stack != []
      invariant Walking(es, out, stack, children)
      decreases total - |out|
    {
      WalkStep(es, out, stack, children);
      var top := stack[|stack| - 1];
      stack := stack[..|stack| - 1];
      out := out + [top];
      stack := stack + Lookup(children, top.eid);
      children := children - {top.eid};
    }
    WalkEnd(es, out, children);
  }

  // ----- what it lists -----------------------------------------------------

  /** The order lists each element whose anchors lead to the head once, and nothing else. */
  lemma {:induction false} OrderLists(es: seq<Elem>)
    requires Wf(es)
    ensures Once(Order(es))
    ensures forall i :: i in Order(es) <==> IsItem(es, i) && Reachable(es, i.eid)
  {
    HeadReachable(es);
    BelowOnce(es, HEAD);
    forall i ensures i in Order(es) <==> IsItem(es, i) && Reachable(es, i.eid) {
      BelowIff(es, HEAD, i);
      if i in Order(es) {
        var k: nat :| k > 0 && Climbs(es, i.eid, k, HEAD);
        assert HasDepth(es, i.eid, k);
      }
      if IsItem(es, i) && Reachable(es, i.eid) {
        var e :| e in es && i == Item(e.eid, e.live);
        var k: nat :| HasDepth(es, i.eid, k);
        assert k > 0 && Climbs(es, i.eid, k, HEAD);
      }
    }
  }

  /** Anchors never lead back: each present anchor ranks below what is anchored on it. */
  ghost predicate Acyclic(es: seq<Elem>, rank: nat -> nat) {
    forall d :: d in es && d.left in Present(es) ==> rank(d.left) < rank(d.eid)
  }

  /** Then anchors lead to the head from everywhere. */
  lemma {:induction false} AcyclicReaches(es: seq<Elem>, rank: nat -> nat, e: Elem)
    requires Wf(es) && e in es && Acyclic(es, rank)
    ensures Reachable(es, e.eid)
    decreases rank(e.eid)
  {
    HeadReachable(es);
    DepthStep(es, e);
    if Anchor(Present(es), e) != HEAD {
      var d :| d in es && d.eid == e.left;
      AcyclicReaches(es, rank, d);
    }
  }

  /** With acyclic anchors the order lists every element, once. */
  lemma {:induction false} AcyclicLists(es: seq<Elem>, rank: nat -> nat)
    requires Wf(es) && Acyclic(es, rank)
    ensures Once(Order(es)) && forall i :: i in Order(es) <==> IsItem(es, i)
  {
    OrderLists(es);
    forall i | IsItem(es, i) ensures Reachable(es, i.eid) {
      var e :| e in es && i == Item(e.eid, e.live);
      AcyclicReaches(es, rank, e);
    }
  }

  /** An element is directly followed by everything anchored below it. */
  lemma {:induction false} BelowContiguous(es: seq<Elem>, id: nat, i: Item)
    returns (before: seq<Item>, after: seq<Item>)
    requires Wf(es) && Reachable(es, id) && i in Below(es, id)
    ensures Reachable(es, i.eid) && Below(es, id) == before + Block(es, i) + after
    decreases Height(es, id), 1, 0
  {
    KidsUnder(es, id);
    before, after := ListContiguous(es, id, Kids(es, id), i);
  }

  lemma {:induction false} ListContiguous(es: seq<Elem>, id: nat, kids: seq<Item>, i: Item)
    returns (before: seq<Item>, after: seq<Item>)
    requires Wf(es) && Under(es, kids, id) && i in BelowList(es, id, kids)
    ensures Reachable(es, i.eid) && BelowList(es, id, kids) == before + Block(es, i) + after
    decreases Height(es, id), 0, |kids|
  {
    var front, last := kids[..|kids| - 1], kids[|kids| - 1];
    var rest := BelowList(es, id, front);
    if i in rest {
      before, after := ListContiguous(es, id, front, i);
      Around(Block(es, last), before, Block(es, i), after, []);
      before := Block(es, last) + before;
    } else {
      before, after := BlockContiguous(es, id, last, i);
      Around([], before, Block(es, i), after, rest);
      after := after + rest;
    }
  }

  lemma {:induction false} BlockContiguous(es: seq<Elem>, id: nat, last: Item, i: Item)
    returns (before: seq<Item>, after: seq<Item>)
    requires Wf(es) && Reachable(es, id) && Reachable(es, last.eid) && Height(es, last.eid) < Height(es, id) &&
      i in Block(es, last)
    ensures Reachable(es, i.eid) && Block(es, last) == before + Block(es, i) + after
    decreases Height(es, id), 0, 0
  {
    if i == last {
      before, after := [], [];
    } else {
      before, after := BelowContiguous(es, last.eid, i);
      Around([last], before, Block(es, i), after, []);
      before := [last] + before;
    }
  }

  lemma {:induction false} Around(x: seq<Item>, before: seq<Item>, block: seq<Item>, after: seq<Item>, y: seq<Item>)
    ensures x + (before + block + after) + y == (x + before) + block + (after + y)
    ensures x + (before + block + after) == (x + before) + block + after
    ensures (before + block + after) + y == before + block + (after + y)
  {}
}
