/** Structural classification of a matched pair of trees. */
module Classify {
  import opened Options
  import opened Model
  import opened Trees
  import L = Lis
  import S = Sorting

  /** A matching as two partial maps between arena indices. */
  datatype Pairing = Pairing(a2b: seq<Option<nat>>, b2a: seq<Option<nat>>)

  /** One-to-one, in range, kind-respecting and pairing the roots. */
  predicate PairingOk(a: Tree, b: Tree, m: Pairing) {
    && |m.a2b| == |a| && |m.b2a| == |b| && |a| > 0 && |b| > 0
    && (forall x :: 0 <= x < |a| && m.a2b[x].Some? ==>
          m.a2b[x].value < |b| && m.b2a[m.a2b[x].value] == Some(x) && a[x].shell.kind == b[m.a2b[x].value].shell.kind)
    && (forall y :: 0 <= y < |b| && m.b2a[y].Some? ==> m.b2a[y].value < |a| && m.a2b[m.b2a[y].value] == Some(y))
    && m.a2b[0] == Some(0)
  }

  predicate Inputs(a: Tree, b: Tree, m: Pairing) {
    WellFormed(a) && WellFormed(b) && PairingOk(a, b, m)
  }

  datatype Raw =
    | Move(a: nat, b: nat)
    | Delete(a: nat)
    | Insert(b: nat)
    | Modify(a: nat, b: nat)
    | Format(a: nat, b: nat)
    | SetAttrs(a: nat, b: nat)

  // ----- who stays ---------------------------------------------------------

  /** x keeps its parent: the parent's partner is the parent of x's partner. */
  predicate AtHome(a: Tree, b: Tree, m: Pairing, x: nat)
    requires Inputs(a, b, m) && x < |a| && m.a2b[x].Some?
  {
    a[x].parent.Some? && a[x].parent.value < |a| && m.a2b[a[x].parent.value].Some? &&
    b[m.a2b[x].value].parent == m.a2b[a[x].parent.value]
  }

  predicate IsKid(a: Tree, b: Tree, m: Pairing, p: nat, c: nat)
    requires Inputs(a, b, m) && p < |a|
  {
    c < |a| && m.a2b[c].Some? && b[m.a2b[c].value].parent == m.a2b[p]
  }

  /** Children of p that keep their parent, in the order of `cs`. */
  function KidsAmong(a: Tree, b: Tree, m: Pairing, p: nat, cs: seq<nat>): (ks: seq<nat>)
    requires Inputs(a, b, m) && p < |a| && m.a2b[p].Some?
    requires forall i :: 0 <= i < |cs| ==> cs[i] < |a|
    ensures forall i :: 0 <= i < |ks| ==> ks[i] in cs && IsKid(a, b, m, p, ks[i])
    ensures forall i :: 0 <= i < |cs| && IsKid(a, b, m, p, cs[i]) ==> cs[i] in ks
  {
    if cs == [] then []
    else
      var c := cs[|cs| - 1];
      var front := KidsAmong(a, b, m, p, cs[..|cs| - 1]);
      assert forall i :: 0 <= i < |cs| - 1 ==> cs[i] == cs[..|cs| - 1][i];
      if IsKid(a, b, m, p, c) then front + [c] else front
  }

  function Kids(a: Tree, b: Tree, m: Pairing, p: nat): seq<nat>
    requires Inputs(a, b, m) && p < |a| && m.a2b[p].Some?
  {
    assert ChildrenOk(a, p);
    KidsAmong(a, b, m, p, a[p].children)
  }

  lemma {:induction false} AscendSnoc(ks: seq<nat>, front: seq<nat>, last: nat)
    requires S.Ascending(ks) && S.Ascending(front + [last]) && forall k :: k in ks ==> k in front
    ensures S.Ascending(front) && S.Ascending(ks + [last])
  {
    var all := front + [last];
    assert forall i :: 0 <= i < |front| ==> all[i] == front[i];
    forall k | k in ks ensures k < last {
      var i :| 0 <= i < |front| && front[i] == k;
      assert all[i] == k && all[|front|] == last;
    }
    forall j | 0 <= j < |ks| ensures ks[j] < last { assert ks[j] in ks; }
  }

  lemma {:induction false} KidsAscend(a: Tree, b: Tree, m: Pairing, p: nat, cs: seq<nat>)
    requires Inputs(a, b, m) && p < |a| && m.a2b[p].Some?
    requires forall i :: 0 <= i < |cs| ==> cs[i] < |a|
    requires S.Ascending(cs)
    ensures S.Ascending(KidsAmong(a, b, m, p, cs))
  {
    if cs != [] {
      var front, last := cs[..|cs| - 1], cs[|cs| - 1];
      assert cs == front + [last];
      AscendSnoc([], front, last);
      KidsAscend(a, b, m, p, front);
      AscendSnoc(KidsAmong(a, b, m, p, front), front, last);
    }
  }

  /** The position of each node among its siblings. */
  ghost predicate OrdOk(b: Tree, ord: seq<nat>) {
    |ord| == |b| && forall p, j :: 0 <= p < |b| && 0 <= j < |b[p].children| && b[p].children[j] < |b| ==>
      ord[b[p].children[j]] == j
  }

  method Ordinals(b: Tree) returns (ord: seq<nat>)
    requires WellFormed(b)
    ensures OrdOk(b, ord)
  {
    var o := new nat[|b|](_ => 0);
    for p := 0 to |b|
      invariant forall q, j :: 0 <= q < p && 0 <= j < |b[q].children| && b[q].children[j] < |b| ==>
        o[b[q].children[j]] == j
    {
      assert ChildrenOk(b, p);
      for i := 0 to |b[p].children|
        invariant forall q, j :: 0 <= q < p && 0 <= j < |b[q].children| && b[q].children[j] < |b| ==>
          o[b[q].children[j]] == j
        invariant forall j :: 0 <= j < i ==> o[b[p].children[j]] == j
      {
        forall q, j | 0 <= q < p && 0 <= j < |b[q].children| && b[q].children[j] < |b|
          ensures b[q].children[j] != b[p].children[i]
        {
          assert ChildrenOk(b, q);
        }
        o[b[p].children[i]] := i;
      }
    }
    return o[..];
  }

  function OrdOf(m: Pairing, ord: seq<nat>, c: nat): nat {
    if c < |m.a2b| && m.a2b[c].Some? && m.a2b[c].value < |ord| then ord[m.a2b[c].value] else 0
  }

  function Ords(m: Pairing, ord: seq<nat>, ks: seq<nat>): seq<nat> {
    seq(|ks|, i requires 0 <= i < |ks| => OrdOf(m, ord, ks[i]))
  }

  /** Exactly the kids at the positions `stays` are not moved, and they are a longest
      subset whose order both trees agree on. */
  ghost predicate StaysAre(ks: seq<nat>, xs: seq<nat>, moved: seq<bool>, stays: seq<nat>) {
    && |ks| == |xs|
    && L.Increasing(xs, stays)
    && (forall c :: L.Increasing(xs, c) ==> |c| <= |stays|)
    && (forall t :: 0 <= t < |ks| && ks[t] < |moved| ==> (moved[ks[t]] <==> t !in stays))
  }

  /** The flags of p's kids are settled. */
  ghost predicate Settled(a: Tree, b: Tree, m: Pairing, ord: seq<nat>, moved: seq<bool>, p: nat)
    requires Inputs(a, b, m) && |ord| == |b| && p < |a| && m.a2b[p].Some?
  {
    exists stays :: StaysAre(Kids(a, b, m, p), Ords(m, ord, Kids(a, b, m, p)), moved, stays)
  }

  /** Moved nodes: those away from home, and at home all but a longest ordered subset. */
  ghost predicate MovedOk(a: Tree, b: Tree, m: Pairing, ord: seq<nat>, moved: seq<bool>)
    requires Inputs(a, b, m)
  {
    && OrdOk(b, ord) && |moved| == |a|
    && (forall x :: 0 <= x < |a| && moved[x] ==> x > 0 && m.a2b[x].Some?)
    && (forall x :: 0 < x < |a| && m.a2b[x].Some? && !moved[x] ==> AtHome(a, b, m, x))
    && (forall p :: 0 <= p < |a| && m.a2b[p].Some? ==> Settled(a, b, m, ord, moved, p))
  }

  /** Kids of different parents are different nodes. */
  lemma {:induction false} KidsParent(a: Tree, b: Tree, m: Pairing, p: nat, c: nat)
    requires Inputs(a, b, m) && p < |a| && m.a2b[p].Some? && c in Kids(a, b, m, p)
    ensures c < |a| && a[c].parent == Some(p) && AtHome(a, b, m, c) && c > p
  {
    assert ChildrenOk(a, p);
  }

  lemma {:induction false} SettledFrame(a: Tree, b: Tree, m: Pairing, ord: seq<nat>, moved: seq<bool>,
      moved': seq<bool>, p: nat)
    requires Inputs(a, b, m) && |ord| == |b| && p < |a| && m.a2b[p].Some?
    requires |moved| == |moved'| && forall c :: c in Kids(a, b, m, p) && c < |moved| ==> moved[c] == moved'[c]
    requires Settled(a, b, m, ord, moved, p)
    ensures Settled(a, b, m, ord, moved', p)
  {
    var ks := Kids(a, b, m, p);
    var stays :| StaysAre(ks, Ords(m, ord, ks), moved, stays);
    assert forall t :: 0 <= t < |ks| ==> ks[t] in ks;
    assert StaysAre(ks, Ords(m, ord, ks), moved', stays);
  }

  /** Flag all kids of one parent. */
  method MarkKids(ks: seq<nat>, xs: seq<nat>, flags: array<bool>) returns (ghost stays: seq<nat>)
    requires |ks| == |xs| && (forall i :: 0 <= i < |ks| ==> ks[i] < flags.Length)
    requires S.Ascending(ks)
    modifies flags
    ensures StaysAre(ks, xs, flags[..], stays)
    ensures forall x :: 0 <= x < flags.Length && x !in ks ==> flags[x] == old(flags[x])
  {
    var chosen := L.Longest(xs);
    stays := chosen;
    for t := 0 to |ks|
      invariant forall u :: 0 <= u < t ==> flags[ks[u]]
      invariant forall x :: 0 <= x < flags.Length && x !in ks ==> flags[x] == old(flags[x])
    {
      flags[ks[t]] := true;
    }
    for i := 0 to |chosen|
      invariant forall t :: 0 <= t < |ks| ==> (flags[ks[t]] <==> t !in chosen[..i])
      invariant forall x :: 0 <= x < flags.Length && x !in ks ==> flags[x] == old(flags[x])
    {
      assert chosen[..i + 1] == chosen[..i] + [chosen[i]];
      flags[ks[chosen[i]]] := false;
    }
    assert chosen[..|chosen|] == chosen;
  }

  ghost predicate MarkedBelow(a: Tree, b: Tree, m: Pairing, ord: seq<nat>, moved: seq<bool>, n: nat)
    requires Inputs(a, b, m)
  {
    && OrdOk(b, ord) && |moved| == |a| && n <= |a|
    && (forall x :: 0 <= x < |a| && moved[x] ==> x > 0 && m.a2b[x].Some?)
    && (forall x :: 0 < x < n && m.a2b[x].Some? && !moved[x] ==> AtHome(a, b, m, x))
    && (forall p :: 0 <= p < n && m.a2b[p].Some? ==> Settled(a, b, m, ord, moved, p))
  }

  lemma {:induction false} MarkStep(a: Tree, b: Tree, m: Pairing, ord: seq<nat>, moved: seq<bool>, moved': seq<bool>,
      n: nat, stays: seq<nat>)
    requires Inputs(a, b, m) && n < |a| && m.a2b[n].Some?
    requires MarkedBelow(a, b, m, ord, moved, n) && |moved'| == |a|
    requires n > 0 && !AtHome(a, b, m, n) ==> moved'[n]
    requires forall x :: 0 <= x < |a| && x != n && x !in Kids(a, b, m, n) ==> moved'[x] == moved[x]
    requires n == 0 || AtHome(a, b, m, n) ==> moved'[n] == moved[n]
    requires StaysAre(Kids(a, b, m, n), Ords(m, ord, Kids(a, b, m, n)), moved', stays)
    ensures MarkedBelow(a, b, m, ord, moved', n + 1)
  {
    forall x | x in Kids(a, b, m, n) ensures x > n && m.a2b[x].Some? { KidsParent(a, b, m, n, x); }
    forall p | 0 <= p < n + 1 && m.a2b[p].Some? ensures Settled(a, b, m, ord, moved', p) {
      if p < n {
        forall c | c in Kids(a, b, m, p) && c < |moved| ensures moved[c] == moved'[c] {
          KidsParent(a, b, m, p, c);
          if c in Kids(a, b, m, n) { KidsParent(a, b, m, n, c); }
        }
        SettledFrame(a, b, m, ord, moved, moved', p);
      }
    }
  }

  lemma {:induction false} MarkSkip(a: Tree, b: Tree, m: Pairing, ord: seq<nat>, moved: seq<bool>, n: nat)
    requires Inputs(a, b, m) && n < |a| && m.a2b[n].None?
    requires MarkedBelow(a, b, m, ord, moved, n)
    ensures MarkedBelow(a, b, m, ord, moved, n + 1)
  {
    forall p | 0 <= p < n + 1 && m.a2b[p].Some? ensures Settled(a, b, m, ord, moved, p) {
      assert p < n;
    }
  }

  /** The first loop of the classification. */
  method MarkMoved(a: Tree, b: Tree, m: Pairing) returns (moved: seq<bool>, ghost ord: seq<nat>)
    requires Inputs(a, b, m)
    ensures MovedOk(a, b, m, ord, moved)
  {
    var flags := new bool[|a|](_ => false);
    var o := Ordinals(b);
    ord := o;
    for n := 0 to |a|
      invariant MarkedBelow(a, b, m, o, flags[..], n)
    {
      if m.a2b[n].Some? {
        MarkNode(a, b, m, o, flags, n);
      } else {
        MarkSkip(a, b, m, o, flags[..], n);
      }
    }
    return flags[..], ord;
  }

  method MarkNode(a: Tree, b: Tree, m: Pairing, ord: seq<nat>, flags: array<bool>, n: nat)
    requires Inputs(a, b, m) && n < |a| && m.a2b[n].Some?
    requires MarkedBelow(a, b, m, ord, flags[..], n)
    modifies flags
    ensures MarkedBelow(a, b, m, ord, flags[..], n + 1)
  {
    ghost var before := flags[..];
    if n > 0 && !AtHome(a, b, m, n) {
      flags[n] := true;
    }
    assert ChildrenOk(a, n);
    var ks := Kids(a, b, m, n);
    KidsAscend(a, b, m, n, a[n].children);
    forall x | x in ks ensures x > n { KidsParent(a, b, m, n, x); }
    ghost var stays := MarkKids(ks, Ords(m, ord, ks), flags);
    MarkStep(a, b, m, ord, before, flags[..], n, stays);
  }

  /** Kids that stay have increasing ordinals. */
  lemma {:induction false} StaysIncrease(ks: seq<nat>, xs: seq<nat>, moved: seq<bool>, stays: seq<nat>, j: nat, k: nat)
    requires StaysAre(ks, xs, moved, stays) && j < k < |ks|
    requires ks[j] < |moved| && ks[k] < |moved| && !moved[ks[j]] && !moved[ks[k]]
    ensures xs[j] < xs[k]
  {
    assert j in stays && k in stays;
    var s :| 0 <= s < |stays| && stays[s] == j;
    var t :| 0 <= t < |stays| && stays[t] == k;
    assert s < t;
  }

  /** Ordinals of siblings order them as their indices do. */
  lemma {:induction false} OrdinalsOrder(b: Tree, ord: seq<nat>, y: nat, z: nat)
    requires WellFormed(b) && OrdOk(b, ord) && 0 < y < |b| && 0 < z < |b| && b[y].parent == b[z].parent
    ensures ord[y] < ord[z] <==> y < z
  {
    assert ParentOk(b, y) && ParentOk(b, z);
    var q := b[y].parent.value;
    assert ChildrenOk(b, q);
    var u :| 0 <= u < |b[q].children| && b[q].children[u] == y;
    var v :| 0 <= v < |b[q].children| && b[q].children[v] == z;
  }

  lemma {:induction false} KidPositions(a: Tree, b: Tree, m: Pairing, p: nat, c: nat, d: nat) returns (j: nat, k: nat)
    requires Inputs(a, b, m) && 0 < c < d < |a| && a[c].parent == a[d].parent == Some(p) && p < |a|
    requires m.a2b[c].Some? && m.a2b[d].Some? && m.a2b[p].Some? && AtHome(a, b, m, c) && AtHome(a, b, m, d)
    ensures var ks := Kids(a, b, m, p); j < k < |ks| && ks[j] == c && ks[k] == d
  {
    assert ParentOk(a, c) && ParentOk(a, d) && ChildrenOk(a, p);
    var ks := Kids(a, b, m, p);
    KidsAscend(a, b, m, p, a[p].children);
    assert IsKid(a, b, m, p, c) && IsKid(a, b, m, p, d);
    j :| 0 <= j < |ks| && ks[j] == c;
    k :| 0 <= k < |ks| && ks[k] == d;
  }

  /** Unmoved siblings stand in the same order in both trees. */
  lemma {:induction false} StaysOrdered(a: Tree, b: Tree, m: Pairing, ord: seq<nat>, moved: seq<bool>, c: nat, d: nat)
    requires Inputs(a, b, m) && MovedOk(a, b, m, ord, moved)
    requires 0 < c < d < |a| && a[c].parent == a[d].parent && m.a2b[c].Some? && m.a2b[d].Some? && !moved[c] && !moved[d]
    ensures m.a2b[c].value < m.a2b[d].value
  {
    assert AtHome(a, b, m, c) && AtHome(a, b, m, d);
    var p := a[c].parent.value;
    var ks, xs := Kids(a, b, m, p), Ords(m, ord, Kids(a, b, m, p));
    var j, k := KidPositions(a, b, m, p, c, d);
    assert Settled(a, b, m, ord, moved, p);
    var stays :| StaysAre(ks, xs, moved, stays);
    StaysIncrease(ks, xs, moved, stays, j, k);
    NonRoot(a, b, m, c);
    NonRoot(a, b, m, d);
    OrdinalsOrder(b, ord, m.a2b[c].value, m.a2b[d].value);
  }

  lemma {:induction false} NonRoot(a: Tree, b: Tree, m: Pairing, x: nat)
    requires Inputs(a, b, m) && 0 < x < |a| && m.a2b[x].Some?
    ensures 0 < m.a2b[x].value < |b|
  {
  }

  // ----- the raw operations ------------------------------------------------

  /** The operations that describe the difference. */
  predicate RawOk(a: Tree, b: Tree, m: Pairing, moved: seq<bool>, r: Raw)
    requires Inputs(a, b, m) && |moved| == |a|
  {
    match r
    case Move(x, y) => x < |a| && m.a2b[x] == Some(y) && moved[x]
    case Delete(x) =>
      0 < x < |a| && m.a2b[x].None? && a[x].parent.Some? && a[x].parent.value < |a| && m.a2b[a[x].parent.value].Some?
    case Insert(y) => 0 < y < |b| && m.b2a[y].None?
    case Modify(x, y) =>
      x < |a| && m.a2b[x] == Some(y) && a[x].shell.text.Some? && a[x].shell.text.value.x != b[y].shell.text.value.x
    case Format(x, y) =>
      x < |a| && m.a2b[x] == Some(y) && a[x].shell.text.Some? && a[x].shell.text.value.x == b[y].shell.text.value.x &&
                         a[x].shell.text.value.f != b[y].shell.text.value.f
    case SetAttrs(x, y) => x < |a| && m.a2b[x] == Some(y) && a[x].shell.attrs != b[y].shell.attrs
  }

  /** The operations on one node of the base tree. */
  function NodeRaws(a: Tree, b: Tree, m: Pairing, moved: seq<bool>, x: nat): seq<Raw>
    requires Inputs(a, b, m) && |moved| == |a| && x < |a|
  {
    match m.a2b[x]
    case None =>
      if x != 0 && a[x].parent.Some? && a[x].parent.value < |a| && m.a2b[a[x].parent.value].Some?
      then [Delete(x)]
      else []
    case Some(y) =>
      (if moved[x] then [Move(x, y)] else []) +
      (if a[x].shell.attrs != b[y].shell.attrs then [SetAttrs(x, y)] else []) +
      (match (a[x].shell.text, b[y].shell.text)
       case (Some(s), Some(t)) => if s.x != t.x then [Modify(x, y)] else if s.f != t.f then [Format(x, y)] else []
       case _ => [])
  }

  /** They are exactly the legal ones. */
  lemma {:induction false} NodeRawsExact(a: Tree, b: Tree, m: Pairing, moved: seq<bool>, x: nat, r: Raw)
    requires Inputs(a, b, m) && |moved| == |a| && x < |a|
    ensures r in NodeRaws(a, b, m, moved, x) <==> !r.Insert? && r.a == x && RawOk(a, b, m, moved, r)
  {
    assert NodeOk(a[x]);
  }

  lemma {:induction false} NodeRawsDistinct(a: Tree, b: Tree, m: Pairing, moved: seq<bool>, x: nat)
    requires Inputs(a, b, m) && |moved| == |a| && x < |a|
    ensures S.Distinct(NodeRaws(a, b, m, moved, x))
  {
    assert NodeOk(a[x]);
  }

  ghost predicate ListsBelow(a: Tree, b: Tree, m: Pairing, moved: seq<bool>, out: seq<Raw>, n: nat, k: nat)
    requires Inputs(a, b, m) && |moved| == |a|
  {
    && S.Distinct(out)
    && (forall r :: r in out <==> RawOk(a, b, m, moved, r) && (if r.Insert? then r.b < k else r.a < n))
  }

  lemma {:induction false} ListsNode(a: Tree, b: Tree, m: Pairing, moved: seq<bool>, out: seq<Raw>, n: nat)
    requires Inputs(a, b, m) && |moved| == |a| && n < |a|
    requires ListsBelow(a, b, m, moved, out, n, 0)
    ensures ListsBelow(a, b, m, moved, out + NodeRaws(a, b, m, moved, n), n + 1, 0)
  {
    var new_ := NodeRaws(a, b, m, moved, n);
    NodeRawsDistinct(a, b, m, moved, n);
    forall r ensures r in new_ <==> !r.Insert? && r.a == n && RawOk(a, b, m, moved, r) {
      NodeRawsExact(a, b, m, moved, n, r);
    }
    var all := out + new_;
    forall i, j | 0 <= i < j < |all| ensures all[i] != all[j] {
      if i < |out| <= j { assert all[i] in out && all[j] in new_; }
    }
  }

  function InsertRaws(m: Pairing, k: nat): seq<Raw>
    requires k < |m.b2a|
  {
    if k != 0 && m.b2a[k].None? then [Insert(k)] else []
  }

  lemma {:induction false} ListsInsert(a: Tree, b: Tree, m: Pairing, moved: seq<bool>, out: seq<Raw>, k: nat)
    requires Inputs(a, b, m) && |moved| == |a| && k < |b|
    requires ListsBelow(a, b, m, moved, out, |a|, k)
    ensures ListsBelow(a, b, m, moved, out + InsertRaws(m, k), |a|, k + 1)
  {
    var all := out + InsertRaws(m, k);
    assert Insert(k) !in out;
    forall r ensures r in all <==> RawOk(a, b, m, moved, r) && (if r.Insert? then r.b < k + 1 else r.a < |a|) {
      assert r in all <==> r in out || (r == Insert(k) && k != 0 && m.b2a[k].None?);
    }
  }

  lemma {:induction false} ListsNone(a: Tree, b: Tree, m: Pairing, moved: seq<bool>)
    requires Inputs(a, b, m) && |moved| == |a|
    ensures ListsBelow(a, b, m, moved, [], 0, 0)
  {
    var none: seq<Raw> := [];
    forall r ensures r in none <==> RawOk(a, b, m, moved, r) && (if r.Insert? then r.b < 0 else r.a < 0) {
      assert r.Insert? ==> r.b >= 0;
    }
  }

  lemma {:induction false} ListsAll(a: Tree, b: Tree, m: Pairing, moved: seq<bool>, out: seq<Raw>)
    requires Inputs(a, b, m) && |moved| == |a|
    requires ListsBelow(a, b, m, moved, out, |a|, |b|)
    ensures forall r :: r in out <==> RawOk(a, b, m, moved, r)
  {
  }

  /** The classification: every operation that describes the difference, once. */
  method Run(a: Tree, b: Tree, m: Pairing) returns (out: seq<Raw>, moved: seq<bool>, ghost ord: seq<nat>)
    requires Inputs(a, b, m)
    ensures MovedOk(a, b, m, ord, moved)
    ensures S.Distinct(out)
    ensures forall r :: r in out <==> RawOk(a, b, m, moved, r)
  {
    moved, ord := MarkMoved(a, b, m);
    out := [];
    ListsNone(a, b, m, moved);
    for n := 0 to |a|
      invariant ListsBelow(a, b, m, moved, out, n, 0)
    {
      ListsNode(a, b, m, moved, out, n);
      out := out + NodeRaws(a, b, m, moved, n);
    }
    for k := 0 to |b|
      invariant ListsBelow(a, b, m, moved, out, |a|, k)
    {
      ListsInsert(a, b, m, moved, out, k);
      out := out + InsertRaws(m, k);
    }
    ListsAll(a, b, m, moved, out);
  }
}
