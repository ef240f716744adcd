/** Bounded Myers search for a common subsequence of two unit sequences.

    The frontier `v` maps each diagonal k = x - y to the furthest x reached; `trace` keeps
    one frontier per depth so that the path can be walked back from (n, m).  Indices into
    a frontier are shifted by `off = n + m + 1`, so that every diagonal has both neighbours. */
module Myers {
  import opened Options

  /** Strictly increasing in both coordinates, starting no earlier than (x, y). */
  predicate Chain(ps: seq<(nat, nat)>, x: int, y: int) {
    && (forall i :: 0 <= i < |ps| ==> x <= ps[i].0 && y <= ps[i].1)
    && (forall i, j :: 0 <= i < j < |ps| ==> ps[i].0 < ps[j].0 && ps[i].1 < ps[j].1)
  }

  predicate PairsEqual(ps: seq<(nat, nat)>, n: nat, m: nat, eq: (nat, nat) -> bool) {
    forall i :: 0 <= i < |ps| ==> ps[i].0 < n && ps[i].1 < m && eq(ps[i].0, ps[i].1)
  }

  /** What a match list means: equal units, aligned without crossing. */
  predicate CommonSubsequence(ps: seq<(nat, nat)>, n: nat, m: nat, eq: (nat, nat) -> bool) {
    Chain(ps, 0, 0) && PairsEqual(ps, n, m, eq)
  }

  // ----- frontiers ---------------------------------------------------------

  predicate Shaped(v: seq<int>, off: int) {
    0 <= off && |v| == 2 * off + 1
  }

  /** The frontier entry of diagonal k. */
  function At(v: seq<int>, off: int, k: int): int
    requires Shaped(v, off) && -off <= k <= off
  {
    v[off + k]
  }

  /** Diagonals that depth d settles. */
  predicate InDepth(d: int, k: int) {
    -d <= k <= d && (k + d) % 2 == 0
  }

  /** The x from which depth d enters diagonal k: down from k + 1 or right from k - 1. */
  function Start(v: seq<int>, off: int, d: int, k: int): int
    requires Shaped(v, off) && 0 <= d < off && -d <= k <= d
  {
    if k == -d || (k != d && At(v, off, k - 1) < At(v, off, k + 1))
    then At(v, off, k + 1)
    else At(v, off, k - 1) + 1
  }

  /** Every cell of diagonal k between x0 and x1 is a match inside the grid. */
  ghost predicate Snake(n: nat, m: nat, eq: (nat, nat) -> bool, k: int, x0: int, x1: int) {
    x0 <= x1 && forall t :: x0 <= t < x1 ==> Match(n, m, eq, k, t)
  }

  ghost predicate Match(n: nat, m: nat, eq: (nat, nat) -> bool, k: int, t: int) {
    0 <= t < n && 0 <= t - k < m && eq(t, t - k)
  }

  predicate Terminal(n: nat, m: nat, k: int, x: int) {
    n <= x && m <= x - k
  }

  /** The frontier can go no further, and has not arrived. */
  ghost predicate Open(n: nat, m: nat, eq: (nat, nat) -> bool, k: int, x: int) {
    !Match(n, m, eq, k, x) && !Terminal(n, m, k, x)
  }

  /** Diagonal k was settled at depth d from frontier `vp`, without reaching the corner.
      The last two conjuncts bound overshoot: a frontier can leave the grid only by
      stepping out of a neighbour that had already arrived at the same border. */
  ghost predicate Settled(n: nat, m: nat, eq: (nat, nat) -> bool, off: int, vp: seq<int>, d: int, k: int, x: int)
    requires Shaped(vp, off) && 0 <= d < off && -d <= k <= d
  {
    && 0 <= x && 0 <= x - k
    && Snake(n, m, eq, k, Start(vp, off, d, k), x)
    && (n < x ==> -d < k && x - 1 <= At(vp, off, k - 1))
    && (m < x - k ==> k < d && x <= At(vp, off, k + 1))
  }

  /** `vn` is the frontier after depth d started from `vp`, and the corner was not reached. */
  ghost predicate Level(n: nat, m: nat, eq: (nat, nat) -> bool, off: int, vp: seq<int>, vn: seq<int>, d: int)
    requires Shaped(vp, off) && Shaped(vn, off) && 0 <= d < off
  {
    forall k {:trigger At(vn, off, k)} :: InDepth(d, k) ==>
      Settled(n, m, eq, off, vp, d, k, At(vn, off, k)) && Open(n, m, eq, k, At(vn, off, k))
  }

  /** trace[t] -> trace[t+1] is depth t, for all depths below d. */
  ghost predicate Trace(n: nat, m: nat, eq: (nat, nat) -> bool, off: int, trace: seq<seq<int>>, d: int) {
    && 0 <= d <= |trace| - 1 && d <= off && 0 < off
    && (forall t :: 0 <= t < |trace| ==> Shaped(trace[t], off))
    && (forall k :: -off <= k <= off ==> At(trace[0], off, k) == 0)
    && (forall t :: 0 <= t < d ==> LevelAt(n, m, eq, off, trace, t))
  }

  ghost predicate LevelAt(n: nat, m: nat, eq: (nat, nat) -> bool, off: int, trace: seq<seq<int>>, t: int) {
    && 0 <= t < off && t + 1 < |trace| && Shaped(trace[t], off) && Shaped(trace[t + 1], off)
    && Level(n, m, eq, off, trace[t], trace[t + 1], t)
  }

  /** Entering a diagonal never loses ground with respect to either neighbour. */
  lemma {:induction false} StartDominates(v: seq<int>, off: int, d: int, k: int)
    requires Shaped(v, off) && 0 <= d < off && -d <= k <= d
    ensures -d < k ==> At(v, off, k - 1) + 1 <= Start(v, off, d, k)
    ensures k < d ==> At(v, off, k + 1) <= Start(v, off, d, k)
  {
  }

  /** A snake that moved at all ends inside the grid. */
  lemma {:induction false} SnakeEnds(n: nat, m: nat, eq: (nat, nat) -> bool, k: int, x0: int, x1: int)
    requires Snake(n, m, eq, k, x0, x1)
    ensures x0 < x1 ==> 0 < x1 <= n && 0 < x1 - k <= m
  {
    if x0 < x1 { assert Match(n, m, eq, k, x1 - 1); }
  }

  /** The new entry of diagonal k satisfies everything Settled asks. */
  lemma {:induction false} SettleDiagonal(n: nat, m: nat, eq: (nat, nat) -> bool, off: int, trace: seq<seq<int>>,
      d: int, k: int, x: int)
    requires Trace(n, m, eq, off, trace, d) && 0 <= d < off && InDepth(d, k)
    requires Snake(n, m, eq, k, Start(trace[d], off, d, k), x)
    ensures Settled(n, m, eq, off, trace[d], d, k, x)
  {
    var vp := trace[d];
    SnakeEnds(n, m, eq, k, Start(vp, off, d, k), x);
    if d == 0 {
      assert At(vp, off, 1) == 0;
    } else {
      var vpp := trace[d - 1];
      assert LevelAt(n, m, eq, off, trace, d - 1);
      if -d < k { assert InDepth(d - 1, k - 1); var _ := At(vp, off, k - 1); }
      if k < d { assert InDepth(d - 1, k + 1); var _ := At(vp, off, k + 1); }
      if n < x && (k == -d || x != At(vp, off, k - 1) + 1) {
        StartDominates(vpp, off, d - 1, k - 1); // down step: the diagonal below had arrived before
      }
      if m < x - k && (k == d || x != At(vp, off, k + 1)) {
        StartDominates(vpp, off, d - 1, k + 1); // right step: likewise for the diagonal above
      }
    }
  }

  /** The search stops exactly at the corner, never beyond it. */
  lemma {:induction false} TerminalIsCorner(n: nat, m: nat, eq: (nat, nat) -> bool, off: int, trace: seq<seq<int>>,
      d: int, k: int, x: int)
    requires Trace(n, m, eq, off, trace, d) && 0 <= d < off && InDepth(d, k)
    requires Settled(n, m, eq, off, trace[d], d, k, x)
    requires Terminal(n, m, k, x)
    ensures x == n && x - k == m
  {
    if d > 0 {
      assert LevelAt(n, m, eq, off, trace, d - 1);
      if -d < k {
        assert InDepth(d - 1, k - 1) && Open(n, m, eq, k - 1, At(trace[d], off, k - 1));
      }
      if k < d {
        assert InDepth(d - 1, k + 1) && Open(n, m, eq, k + 1, At(trace[d], off, k + 1));
      }
    }
  }

  // ----- the search --------------------------------------------------------

  /** Follow diagonal k from x0 while units match; false when the budget ran out. */
  method Slide(n: nat, m: nat, eq: (nat, nat) -> bool, k: int, x0: int, spent: nat, maxNd: nat)
    returns (x: int, work: nat, ok: bool)
    requires 0 <= x0 && 0 <= x0 - k
    ensures Snake(n, m, eq, k, x0, x)
    ensures ok ==> !Match(n, m, eq, k, x)
    ensures !ok ==> work > maxNd
    ensures spent <= work <= spent + n
  {
    x, work := x0, spent;
    while x < n && x - k < m && eq(x, x - k)
      invariant 0 <= x && 0 <= x - k && work == spent + (x - x0) && (x == x0 || x <= n)
      invariant Snake(n, m, eq, k, x0, x)
    {
      assert Match(n, m, eq, k, x);
      x := x + 1;
      work := work + 1;
      if work > maxNd {
        return x, work, false;
      }
    }
    ok := true;
  }

  /** Push the cells of a snake, last one first, until x0. */
  method Collect(n: nat, m: nat, eq: (nat, nat) -> bool, k: int, x0: int, x1: int, prevX: int, prevY: int,
      later: seq<(nat, nat)>)
    returns (pairs: seq<(nat, nat)>)
    requires Snake(n, m, eq, k, x0, x1)
    requires 0 <= prevX <= x0 && prevY <= x0 - k && -1 <= prevY && (prevX == x0 || prevY == x0 - k)
    requires Chain(later, x1, x1 - k) && PairsEqual(later, n, m, eq)
    ensures Chain(pairs, x0, x0 - k) && PairsEqual(pairs, n, m, eq) && |pairs| == |later| + (x1 - x0)
  {
    var x := x1;
    pairs := later;
    while x > prevX && x - k > prevY
      invariant x0 <= x <= x1 && |pairs| == |later| + (x1 - x)
      invariant Chain(pairs, x, x - k) && PairsEqual(pairs, n, m, eq)
    {
      assert Match(n, m, eq, k, x - 1);
      x := x - 1;
      pairs := [(x, x - k)] + pairs;
    }
  }

  /** Where depth d > 0 came from is an entry that depth d - 1 settled. */
  lemma {:induction false} Predecessor(n: nat, m: nat, eq: (nat, nat) -> bool, off: int, trace: seq<seq<int>>,
      d: int, k: int, k': int)
    requires Trace(n, m, eq, off, trace, d) && 0 < d < off && InDepth(d, k)
    requires InDepth(d - 1, k')
    ensures Settled(n, m, eq, off, trace[d - 1], d - 1, k', At(trace[d], off, k'))
  {
    assert LevelAt(n, m, eq, off, trace, d - 1);
  }

  /** The edits between (x, y) and the corner: the steps that are not pairs. */
  function Edits(n: nat, m: nat, x: int, y: int, pairs: seq<(nat, nat)>): int {
    (n - x) + (m - y) - 2 * |pairs|
  }

  /** The pairs lie behind (x, y), where depth `depth` settled, with one edit per depth in between. */
  ghost predicate Walked(n: nat, m: nat, eq: (nat, nat) -> bool, off: int, trace: seq<seq<int>>, d: int,
                         depth: int, x: int, y: int, pairs: seq<(nat, nat)>)
    requires Trace(n, m, eq, off, trace, d) && d < off
  {
    && -1 <= depth <= d && 0 <= x && 0 <= y && Chain(pairs, x, y) && PairsEqual(pairs, n, m, eq)
    && (0 <= depth ==> InDepth(depth, x - y) && Settled(n, m, eq, off, trace[depth], depth, x - y, x))
    && Edits(n, m, x, y, pairs) == (if depth < 0 then d else d - depth)
    && (depth < 0 ==> x == 0 && y == 0)
  }

  /** The diagonal from which depth d enters diagonal k. */
  function From(v: seq<int>, off: int, d: int, k: int): int
    requires Shaped(v, off) && 0 <= d < off && -d <= k <= d
  {
    if k == -d || (k != d && At(v, off, k - 1) < At(v, off, k + 1)) then k + 1 else k - 1
  }

  /** Depth d enters diagonal k by one step from a neighbour that depth d - 1 settled. */
  lemma {:induction false} Entered(n: nat, m: nat, eq: (nat, nat) -> bool, off: int, trace: seq<seq<int>>, d: int,
      k: int)
    requires Trace(n, m, eq, off, trace, d) && 0 < d < off && InDepth(d, k)
    ensures var k', x0 := From(trace[d], off, d, k), Start(trace[d], off, d, k);
      var x := At(trace[d], off, k');
      && InDepth(d - 1, k') && Settled(n, m, eq, off, trace[d - 1], d - 1, k', x) && 0 <= x && 0 <= x - k'
      && x <= x0 && x - k' <= x0 - k && (x == x0 || x - k' == x0 - k) && x0 + (x0 - k) == x + (x - k') + 1
  {
    Predecessor(n, m, eq, off, trace, d, k, From(trace[d], off, d, k));
  }

  lemma {:induction false} EnteredFirst(n: nat, m: nat, eq: (nat, nat) -> bool, off: int, trace: seq<seq<int>>, d: int)
    requires Trace(n, m, eq, off, trace, d) && off > 0
    ensures From(trace[0], off, 0, 0) == 1 && At(trace[0], off, 1) == 0 && Start(trace[0], off, 0, 0) == 0
  {}

  method WalkBack(n: nat, m: nat, eq: (nat, nat) -> bool, off: int, trace: seq<seq<int>>, ghost d: int,
                  depth: int, x: int, y: int, pairs: seq<(nat, nat)>)
    returns (x': int, y': int, pairs': seq<(nat, nat)>)
    requires Trace(n, m, eq, off, trace, d) && d < off && 0 <= depth &&
      Walked(n, m, eq, off, trace, d, depth, x, y, pairs)
    ensures Walked(n, m, eq, off, trace, d, depth - 1, x', y', pairs')
  {
    var k := x - y;
    var before := trace[depth];
    var prevK := From(before, off, depth, k);
    var prevX := At(before, off, prevK);
    var prevY := prevX - prevK;
    if depth == 0 {
      EnteredFirst(n, m, eq, off, trace, d);
    } else {
      TracePrefix(n, m, eq, off, trace, d, depth);
      Entered(n, m, eq, off, trace, depth, k);
    }
    pairs' := Collect(n, m, eq, k, Start(before, off, depth, k), x, prevX, prevY, pairs);
    if depth > 0 {
      ChainFrom(pairs', Start(before, off, depth, k), Start(before, off, depth, k) - k, prevX, prevY);
      x', y' := prevX, prevY;
    } else {
      x', y' := 0, 0;
    }
  }

  lemma {:induction false} TracePrefix(n: nat, m: nat, eq: (nat, nat) -> bool, off: int, trace: seq<seq<int>>,
      d: int, t: int)
    requires Trace(n, m, eq, off, trace, d) && 0 <= t <= d
    ensures Trace(n, m, eq, off, trace, t)
  {}

  /** Walk the trace back from the corner, collecting the snake cells. */
  method Backtrace(n: nat, m: nat, eq: (nat, nat) -> bool, off: int, trace: seq<seq<int>>, d: int)
    returns (pairs: seq<(nat, nat)>)
    requires Trace(n, m, eq, off, trace, d) && 0 <= d < off && InDepth(d, n - m)
    requires Settled(n, m, eq, off, trace[d], d, n - m, n)
    ensures CommonSubsequence(pairs, n, m, eq) && 2 * |pairs| == n + m - d
  {
    var x, y := n as int, m as int;
    pairs := [];
    var depth := d;
    while depth >= 0
      invariant Walked(n, m, eq, off, trace, d, depth, x, y, pairs)
    {
      x, y, pairs := WalkBack(n, m, eq, off, trace, d, depth, x, y, pairs);
      depth := depth - 1;
    }
  }

  lemma {:induction false} ChainFrom(pairs: seq<(nat, nat)>, x: int, y: int, x': int, y': int)
    requires Chain(pairs, x, y) && x' <= x && y' <= y
    ensures Chain(pairs, x', y')
  {}

  /** Diagonals of depth d below k are settled in v; all others still hold what vp holds. */
  ghost predicate Partial(n: nat, m: nat, eq: (nat, nat) -> bool, off: int, vp: seq<int>, v: seq<int>, d: int, k: int)
    requires Shaped(vp, off) && Shaped(v, off) && 0 <= d < off
  {
    && (forall j {:trigger At(v, off, j)} :: -off <= j <= off && !(InDepth(d, j) && j < k) ==>
      At(v, off, j) == At(vp, off, j))
    && (forall j {:trigger At(v, off, j)} :: InDepth(d, j) && j < k ==>
          Settled(n, m, eq, off, vp, d, j, At(v, off, j)) && Open(n, m, eq, j, At(v, off, j)))
  }

  lemma {:induction false} PartialStep(n: nat, m: nat, eq: (nat, nat) -> bool, off: int, vp: seq<int>, v: seq<int>,
      d: int, k: int, x: int)
    requires Shaped(vp, off) && Shaped(v, off) && 0 <= d < off && InDepth(d, k)
    requires Partial(n, m, eq, off, vp, v, d, k)
    requires Settled(n, m, eq, off, vp, d, k, x) && Open(n, m, eq, k, x)
    ensures Partial(n, m, eq, off, vp, v[off + k := x], d, k + 2)
  {
    var w := v[off + k := x];
    forall j | -off <= j <= off ensures At(w, off, j) == if j == k then x else At(v, off, j) {}
    forall j | InDepth(d, j) && j < k + 2 ensures j <= k {}
  }

  lemma {:induction false} TraceExtends(n: nat, m: nat, eq: (nat, nat) -> bool, off: int, trace: seq<seq<int>>,
      v: seq<int>, d: int)
    requires Trace(n, m, eq, off, trace, d) && |trace| == d + 1 && 0 <= d < off
    requires Shaped(v, off) && Partial(n, m, eq, off, trace[d], v, d, d + 2)
    ensures Trace(n, m, eq, off, trace + [v], d + 1)
  {
    var tr := trace + [v];
    assert Level(n, m, eq, off, tr[d], tr[d + 1], d);
    forall t | 0 <= t < d + 1 ensures LevelAt(n, m, eq, off, tr, t) {
      if t < d { assert LevelAt(n, m, eq, off, trace, t); }
    }
  }

  // ----- optimality --------------------------------------------------------

  lemma {:induction false} ChainShort(c: seq<(nat, nat)>, x: nat, y: nat, eq: (nat, nat) -> bool)
    requires CommonSubsequence(c, x, y, eq)
    ensures |c| <= x && |c| <= y
    decreases |c|
  {
    if c != [] {
      var front, last := c[..|c| - 1], c[|c| - 1];
      forall i | 0 <= i < |front| ensures front[i].0 < last.0 && front[i].1 < last.1 { assert front[i] == c[i]; }
      ChainShort(front, last.0, last.1, eq);
    }
  }

  /** The frontier is at or beyond (x, y) at the depth that its edits ask for. */
  ghost predicate Passed(n: nat, m: nat, eq: (nat, nat) -> bool, off: int, trace: seq<seq<int>>, d: int, x: nat,
      y: nat, e: int)
    requires Trace(n, m, eq, off, trace, d)
  {
    0 <= e < d && InDepth(e, x - y) && x <= At(trace[e + 1], off, x - y)
  }

  lemma {:induction false} PassedMatch(n: nat, m: nat, eq: (nat, nat) -> bool, off: int, trace: seq<seq<int>>,
      d: int, x: nat, y: nat, e: int)
    requires Trace(n, m, eq, off, trace, d) && x < n && y < m && eq(x, y) && Passed(n, m, eq, off, trace, d, x, y, e)
    ensures Passed(n, m, eq, off, trace, d, x + 1, y + 1, e)
  {
    assert LevelAt(n, m, eq, off, trace, e);
    assert Match(n, m, eq, x - y, x);
    assert Open(n, m, eq, x - y, At(trace[e + 1], off, x - y));
  }

  lemma {:induction false} PassedEdit(n: nat, m: nat, eq: (nat, nat) -> bool, off: int, trace: seq<seq<int>>, d: int,
      x: nat, y: nat, e: int, right: bool)
    requires Trace(n, m, eq, off, trace, d) && Passed(n, m, eq, off, trace, d, x, y, e) && e + 1 < d
    ensures if right then Passed(n, m, eq, off, trace, d, x + 1, y, e + 1)
      else Passed(n, m, eq, off, trace, d, x, y + 1, e + 1)
  {
    var k := if right then x + 1 - y else x - (y + 1);
    assert LevelAt(n, m, eq, off, trace, e + 1);
    assert InDepth(e + 1, k);
    StartDominates(trace[e + 1], off, e + 1, k);
    assert Settled(n, m, eq, off, trace[e + 1], e + 1, k, At(trace[e + 2], off, k));
  }

  lemma {:induction false} PassedOrigin(n: nat, m: nat, eq: (nat, nat) -> bool, off: int, trace: seq<seq<int>>, d: int)
    requires Trace(n, m, eq, off, trace, d) && 0 < d
    ensures Passed(n, m, eq, off, trace, d, 0, 0, 0)
  {
    assert LevelAt(n, m, eq, off, trace, 0) && InDepth(0, 0);
    assert Settled(n, m, eq, off, trace[0], 0, 0, At(trace[1], off, 0));
  }

  /** A common subsequence of two prefixes without its last unit on one side, or without its last pair. */
  lemma {:induction false} Shorten(c: seq<(nat, nat)>, x: nat, y: nat, eq: (nat, nat) -> bool) returns (kind: int)
    requires CommonSubsequence(c, x, y, eq) && (x > 0 || y > 0)
    ensures kind == 0 ==> x > 0 && CommonSubsequence(c, x - 1, y, eq)
    ensures kind == 1 ==> y > 0 && CommonSubsequence(c, x, y - 1, eq)
    ensures kind == 2 ==>
      x > 0 && y > 0 && c != [] && eq(x - 1, y - 1) && CommonSubsequence(c[..|c| - 1], x - 1, y - 1, eq)
    ensures 0 <= kind <= 2
  {
    if c == [] {
      kind := if x > 0 then 0 else 1;
    } else {
      var last := c[|c| - 1];
      forall i | 0 <= i < |c| - 1 ensures c[i].0 < last.0 && c[i].1 < last.1 {}
      kind := if last.0 < x - 1 then 0 else if last.1 < y - 1 then 1 else 2;
    }
  }

  /** The frontiers are at least as far as any common subsequence with as many edits. */
  lemma {:induction false} Furthest(n: nat, m: nat, eq: (nat, nat) -> bool, off: int, trace: seq<seq<int>>, d: int,
      x: nat, y: nat, c: seq<(nat, nat)>)
    requires Trace(n, m, eq, off, trace, d) && x <= n && y <= m && CommonSubsequence(c, x, y, eq) && x + y - 2 * |c| < d
    ensures Passed(n, m, eq, off, trace, d, x, y, x + y - 2 * |c|)
    decreases x + y
  {
    ChainShort(c, x, y, eq);
    if x == 0 && y == 0 {
      PassedOrigin(n, m, eq, off, trace, d);
    } else {
      var kind := Shorten(c, x, y, eq);
      if kind == 0 {
        Furthest(n, m, eq, off, trace, d, x - 1, y, c);
        PassedEdit(n, m, eq, off, trace, d, x - 1, y, x + y - 2 * |c| - 1, true);
      } else if kind == 1 {
        Furthest(n, m, eq, off, trace, d, x, y - 1, c);
        PassedEdit(n, m, eq, off, trace, d, x, y - 1, x + y - 2 * |c| - 1, false);
      } else {
        Furthest(n, m, eq, off, trace, d, x - 1, y - 1, c[..|c| - 1]);
        PassedMatch(n, m, eq, off, trace, d, x - 1, y - 1, x + y - 2 * |c|);
      }
    }
  }

  lemma {:induction false} Missed(n: nat, m: nat, eq: (nat, nat) -> bool, off: int, trace: seq<seq<int>>, d: int,
      e: int)
    requires Trace(n, m, eq, off, trace, d) && 0 <= e < d && InDepth(e, n - m)
    ensures At(trace[e + 1], off, n - m) < n
  {
    assert LevelAt(n, m, eq, off, trace, e);
    assert Open(n, m, eq, n - m, At(trace[e + 1], off, n - m));
  }

  /** While the search has not stopped, every common subsequence asks for at least as many edits. */
  lemma {:induction false} NotYet(n: nat, m: nat, eq: (nat, nat) -> bool, off: int, trace: seq<seq<int>>, d: int,
      c: seq<(nat, nat)>)
    requires Trace(n, m, eq, off, trace, d) && CommonSubsequence(c, n, m, eq)
    ensures d <= n + m - 2 * |c|
  {
    if n + m - 2 * |c| < d {
      Furthest(n, m, eq, off, trace, d, n, m, c);
      Missed(n, m, eq, off, trace, d, n + m - 2 * |c|);
    }
  }

  ghost predicate IsLongest(ps: seq<(nat, nat)>, n: nat, m: nat, eq: (nat, nat) -> bool) {
    CommonSubsequence(ps, n, m, eq) && forall c :: CommonSubsequence(c, n, m, eq) ==> |c| <= |ps|
  }

  lemma {:induction false} NothingIsLongest(eq: (nat, nat) -> bool)
    ensures IsLongest([], 0, 0, eq)
  {
    forall c | CommonSubsequence(c, 0, 0, eq) ensures |c| <= 0 { ChainShort(c, 0, 0, eq); }
  }

  lemma {:induction false} FoundLongest(n: nat, m: nat, eq: (nat, nat) -> bool, off: int, trace: seq<seq<int>>,
      d: int, ps: seq<(nat, nat)>)
    requires Trace(n, m, eq, off, trace, d) && CommonSubsequence(ps, n, m, eq) && 2 * |ps| == n + m - d
    ensures IsLongest(ps, n, m, eq)
  {
    forall c | CommonSubsequence(c, n, m, eq) ensures |c| <= |ps| { NotYet(n, m, eq, off, trace, d, c); }
  }

  // ----- work --------------------------------------------------------------

  /** What one depth can cost at most: its frontier and a snake on every diagonal. */
  function Cost(n: nat, m: nat): nat {
    2 * (n + m) + 3 + (n + m + 2) * n
  }

  /** A budget that no search exceeds. */
  function Enough(n: nat, m: nat): nat {
    (n + m + 1) * Cost(n, m)
  }

  lemma {:induction false} Times(a: nat, b: nat, c: nat)
    requires a <= b
    ensures a * c <= b * c
  {}

  /** The most that d depths and i diagonals of the next can have cost. */
  function Bound(n: nat, m: nat, d: nat, i: nat): nat {
    d * Cost(n, m) + 2 * (n + m) + 3 + i * n
  }

  lemma {:induction false} ProductGrows(a: nat, b: nat, c: nat, d: nat)
    requires a <= c && b <= d
    ensures a * b <= c * d
  {
    Times(a, c, b);
    Times(b, d, c);
  }

  /** Longer texts need more. */
  lemma {:induction false} EnoughGrows(n: nat, m: nat, n': nat, m': nat)
    requires n <= n' && m <= m'
    ensures Enough(n, m) <= Enough(n', m')
  {
    ProductGrows(n + m + 2, n, n' + m' + 2, n');
    ProductGrows(n + m + 1, Cost(n, m), n' + m' + 1, Cost(n', m'));
  }

  lemma {:induction false} BoundFits(n: nat, m: nat, d: nat, i: nat)
    requires d <= n + m && i <= d + 1
    ensures Bound(n, m, d, i) <= (d + 1) * Cost(n, m) <= Enough(n, m)
  {
    Times(i, n + m + 2, n);
    Times(d + 1, n + m + 1, Cost(n, m));
  }

  lemma {:induction false} BoundNext(n: nat, m: nat, d: nat, i: nat)
    ensures Bound(n, m, d, i + 1) == Bound(n, m, d, i) + n
  {}

  lemma {:induction false} Exhausted(n: nat, m: nat, eq: (nat, nat) -> bool, off: int, trace: seq<seq<int>>, d: int,
      maxNd: nat)
    requires Trace(n, m, eq, off, trace, d)
    ensures d > n + m ==> maxNd < Enough(n, m)
  {
    NotYet(n, m, eq, off, trace, d, []);
  }

  /** One diagonal of depth d: the corner, a settled frontier entry, or an exhausted budget. */
  datatype Reached = Corner | Settles(x: int) | Spent

  /** The diagonals below the i-th of depth d are settled, at a bounded cost. */
  ghost predicate Advancing(n: nat, m: nat, eq: (nat, nat) -> bool, off: int, trace: seq<seq<int>>, v: seq<int>,
      d: nat, i: nat, work: nat) {
    Frontier(n, m, eq, off, trace, v, d, i) && work <= Bound(n, m, d, i)
  }

  ghost predicate Frontier(n: nat, m: nat, eq: (nat, nat) -> bool, off: int, trace: seq<seq<int>>, v: seq<int>,
      d: nat, i: nat) {
    && Trace(n, m, eq, off, trace, d) && d < off && d <= n + m && i <= d + 1 && Shaped(v, off)
    && Partial(n, m, eq, off, trace[d], v, d, 2 * i - d)
  }

  lemma {:induction false} WorkNext(n: nat, m: nat, d: nat, i: nat, work: nat, spent: nat)
    requires work <= Bound(n, m, d, i) && spent <= work + n
    ensures spent <= Bound(n, m, d, i + 1)
  {
    BoundNext(n, m, d, i);
  }

  lemma {:induction false} FrontierNext(n: nat, m: nat, eq: (nat, nat) -> bool, off: int, trace: seq<seq<int>>,
      v: seq<int>, d: nat, i: nat, x: int)
    requires Frontier(n, m, eq, off, trace, v, d, i) && i <= d
    requires Settled(n, m, eq, off, trace[d], d, 2 * i - d, x) && Open(n, m, eq, 2 * i - d, x)
    ensures Frontier(n, m, eq, off, trace, v[off + (2 * i - d) := x], d, i + 1)
  {
    var k := 2 * i - d;
    PartialStep(n, m, eq, off, trace[d], v, d, k, x);
    assert k + 2 == 2 * (i + 1) - d;
  }

  lemma {:induction false} AdvanceNext(n: nat, m: nat, eq: (nat, nat) -> bool, off: int, trace: seq<seq<int>>,
      v: seq<int>, d: nat, i: nat, work: nat, x: int, spent: nat)
    requires Advancing(n, m, eq, off, trace, v, d, i, work) && i <= d && spent <= work + n
    requires Settled(n, m, eq, off, trace[d], d, 2 * i - d, x) && Open(n, m, eq, 2 * i - d, x)
    ensures Advancing(n, m, eq, off, trace, v[off + (2 * i - d) := x], d, i + 1, spent)
  {
    FrontierNext(n, m, eq, off, trace, v, d, i, x);
    WorkNext(n, m, d, i, work, spent);
  }

  /** The i-th diagonal of depth d, and where its frontier starts. */
  lemma {:induction false} Starting(n: nat, m: nat, eq: (nat, nat) -> bool, off: int, trace: seq<seq<int>>,
      v: seq<int>, d: nat, i: nat, work: nat)
    requires Advancing(n, m, eq, off, trace, v, d, i, work) && i <= d
    ensures var k := 2 * i - d;
      && InDepth(d, k) && Start(v, off, d, k) == Start(trace[d], off, d, k)
      && 0 <= Start(v, off, d, k) && 0 <= Start(v, off, d, k) - k
  {
    var k := 2 * i - d;
    SameStart(n, m, eq, off, trace[d], v, d, k);
    SettleDiagonal(n, m, eq, off, trace, d, k, Start(trace[d], off, d, k));
  }

  /** Settling a diagonal leaves its neighbours of the same depth alone. */
  lemma {:induction false} SameStart(n: nat, m: nat, eq: (nat, nat) -> bool, off: int, vp: seq<int>, v: seq<int>,
      d: nat, k: int)
    requires Shaped(vp, off) && Shaped(v, off) && d < off && InDepth(d, k) && Partial(n, m, eq, off, vp, v, d, k)
    ensures Start(v, off, d, k) == Start(vp, off, d, k)
  {
    assert At(v, off, k - 1) == At(vp, off, k - 1) && At(v, off, k + 1) == At(vp, off, k + 1);
  }

  lemma {:induction false} TooMuch(n: nat, m: nat, d: nat, i: nat, work: nat, spent: nat, maxNd: nat)
    requires d <= n + m && i <= d && work <= Bound(n, m, d, i) && maxNd < spent <= work + n
    ensures maxNd < Enough(n, m)
  {
    BoundNext(n, m, d, i);
    BoundFits(n, m, d, i + 1);
  }

  method Advance(n: nat, m: nat, eq: (nat, nat) -> bool, off: int, ghost trace: seq<seq<int>>, v: seq<int>, d: nat,
      i: nat, work: nat, maxNd: nat)
    returns (r: Reached, spent: nat)
    requires Advancing(n, m, eq, off, trace, v, d, i, work) && i <= d
    ensures r.Spent? ==> maxNd < Enough(n, m)
    ensures r.Corner? ==> 2 * i - d == n - m && Settled(n, m, eq, off, trace[d], d, n - m, n)
    ensures r.Settles? ==> Settled(n, m, eq, off, trace[d], d, 2 * i - d, r.x) && Open(n, m, eq, 2 * i - d, r.x)
    ensures spent <= work + n
  {
    var k: int := 2 * i - d;
    Starting(n, m, eq, off, trace, v, d, i, work);
    var x, ok;
    x, spent, ok := Slide(n, m, eq, k, Start(v, off, d, k), work, maxNd);
    if !ok {
      TooMuch(n, m, d, i, work, spent, maxNd);
      return Spent, spent;
    }
    SettleDiagonal(n, m, eq, off, trace, d, k, x);
    if x >= n && x - k >= m {
      TerminalIsCorner(n, m, eq, off, trace, d, k, x);
      return Corner, spent;
    }
    r := Settles(x);
  }

  /** One depth: the corner was reached, the frontier advanced at some cost, or the budget is exhausted. */
  datatype Depth = Found | Next(work: nat) | Exceeded

  method SearchDepth(n: nat, m: nat, eq: (nat, nat) -> bool, off: int, v: array<int>, ghost trace: seq<seq<int>>,
      d: nat, before: nat, maxNd: nat)
    returns (r: Depth)
    requires Advancing(n, m, eq, off, trace, v[..], d, 0, before)
    modifies v
    ensures r.Found? ==> InDepth(d, n - m) && Settled(n, m, eq, off, trace[d], d, n - m, n)
    ensures r.Next? ==> Advancing(n, m, eq, off, trace, v[..], d, d + 1, r.work)
    ensures r.Exceeded? ==> maxNd < Enough(n, m)
  {
    var work: nat := before;
    for i := 0 to d + 1
      invariant Advancing(n, m, eq, off, trace, v[..], d, i, work)
    {
      var reached, spent := Advance(n, m, eq, off, trace, v[..], d, i, work, maxNd);
      if reached.Spent? {
        return Exceeded;
      }
      if reached.Corner? {
        return Found;
      }
      AdvanceNext(n, m, eq, off, trace, v[..], d, i, work, reached.x, spent);
      v[off + (2 * i - d)] := reached.x;
      work := spent;
    }
    r := Next(work);
  }

  lemma {:induction false} DepthStarts(n: nat, m: nat, eq: (nat, nat) -> bool, off: int, trace: seq<seq<int>>,
      d: nat, work: nat)
    requires Trace(n, m, eq, off, trace, d) && d < off && d <= n + m && work <= d * Cost(n, m) + 2 * (n + m) + 3
    ensures Advancing(n, m, eq, off, trace, trace[d], d, 0, work)
  {}

  lemma {:induction false} DepthEnds(n: nat, m: nat, eq: (nat, nat) -> bool, off: int, trace: seq<seq<int>>,
      v: seq<int>, d: nat, work: nat)
    requires Advancing(n, m, eq, off, trace, v, d, d + 1, work) && |trace| == d + 1
    ensures Trace(n, m, eq, off, trace + [v], d + 1) && work <= (d + 1) * Cost(n, m)
  {
    BoundFits(n, m, d, d + 1);
    TraceExtends(n, m, eq, off, trace, v, d);
  }

  /**
   * Bounded search for a shortest edit path. `None` asks the caller for a coarse
   * replacement: the budget `maxNd`, charged for every stored frontier entry and
   * every snake step, ran out.
   */
  method Search(n: nat, m: nat, eq: (nat, nat) -> bool, maxNd: nat) returns (r: Option<seq<(nat, nat)>>)
    ensures r.Some? ==> IsLongest(r.value, n, m, eq)
    ensures r.None? ==> maxNd < Enough(n, m)
  {
    var max := n + m;
    if max == 0 {
      NothingIsLongest(eq);
      return Some([]);
    }
    BoundFits(n, m, 0, 0);
    if 2 * max + 3 > maxNd {
      return None;
    }
    var off := max + 1;
    var v := new int[2 * max + 3](_ => 0);
    var trace: seq<seq<int>> := [];
    var work: nat := 0;
    for d := 0 to max + 1
      invariant |trace| == d && work <= d * Cost(n, m)
      invariant Trace(n, m, eq, off, trace + [v[..]], d)
    {
      BoundFits(n, m, d, 0);
      if work + v.Length > maxNd {
        return None;
      }
      trace := trace + [v[..]];
      DepthStarts(n, m, eq, off, trace, d, work + v.Length);
      var depth := SearchDepth(n, m, eq, off, v, trace, d, work + v.Length, maxNd);
      if depth.Exceeded? {
        return None;
      }
      if depth.Found? {
        var pairs := Backtrace(n, m, eq, off, trace, d);
        FoundLongest(n, m, eq, off, trace, d, pairs);
        return Some(pairs);
      }
      work := depth.work;
      DepthEnds(n, m, eq, off, trace, v[..], d, work);
    }
    Exhausted(n, m, eq, off, trace + [v[..]], max + 1, maxNd);
    return None;
  }
}
