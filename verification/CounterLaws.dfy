/** Laws of the counter merge, and of every run in which nodes bump their own slots and merge past states. */
module CounterLaws {
  import opened Counters
  import S = Sorting
  import T = TopSets

  // ----- the lowest node ids -----------------------------------------------

  function Below(s: set<nat>, x: nat): set<nat> {
    set y | y in s && y < x
  }

  /** The n lowest elements of s. */
  function Low(s: set<nat>, n: nat): set<nat> {
    set x | x in s && |Below(s, x)| < n
  }

  predicate NodeIds(s: set<nat>) {
    forall x :: x in s ==> x <= NODE_MAX
  }

  /** Node ids in the opposite order. */
  function Mirror(x: nat): nat {
    if x <= NODE_MAX then NODE_MAX - x else x
  }

  function Flip(s: set<nat>): set<nat> {
    set x | x in s :: Mirror(x)
  }

  lemma {:induction false} FlipIn(s: set<nat>, x: nat)
    ensures Mirror(Mirror(x)) == x && (x in Flip(s) <==> Mirror(x) in s)
  {}

  lemma {:induction false} FlipAdd(s: set<nat>, x: nat)
    ensures Flip(s + {x}) == Flip(s) + {Mirror(x)} && (x !in s ==> Mirror(x) !in Flip(s))
  {
    forall y ensures y in Flip(s + {x}) <==> y in Flip(s) + {Mirror(x)} {
      FlipIn(s + {x}, y);
      FlipIn(s, y);
    }
    FlipIn(s, Mirror(x));
  }

  lemma {:induction false} FlipSize(s: set<nat>)
    ensures |Flip(s)| == |s|
  {
    if s != {} {
      var x :| x in s;
      FlipSize(s - {x});
      FlipAdd(s - {x}, x);
      assert s - {x} + {x} == s;
    }
  }

  /** The lowest ids are the highest after flipping. */
  lemma {:induction false} LowIsTop(s: set<nat>, n: nat)
    requires NodeIds(s)
    ensures Flip(Low(s, n)) == T.Top(Flip(s), n)
  {
    forall x: nat ensures x in Flip(Low(s, n)) <==> x in T.Top(Flip(s), n) {
      FlipIn(Low(s, n), x);
      FlipIn(s, x);
      if x in Flip(s) {
        FlippedBelow(s, Mirror(x));
        FlipSize(Below(s, Mirror(x)));
      }
    }
  }

  lemma {:induction false} FlippedBelow(s: set<nat>, y: nat)
    requires NodeIds(s) && y <= NODE_MAX
    ensures Flip(Below(s, y)) == T.Above(Flip(s), Mirror(y))
  {
    forall x: nat ensures x in Flip(Below(s, y)) <==> x in T.Above(Flip(s), Mirror(y)) {
      FlipIn(Below(s, y), x);
      FlipIn(s, x);
    }
  }

  lemma {:induction false} FlipInjective(s: set<nat>, t: set<nat>)
    requires Flip(s) == Flip(t)
    ensures s == t
  {
    forall x ensures x in s <==> x in t {
      FlipIn(s, Mirror(x));
      FlipIn(t, Mirror(x));
    }
  }

  lemma {:induction false} FlipUnion(s: set<nat>, t: set<nat>)
    ensures Flip(s + t) == Flip(s) + Flip(t)
  {}

  lemma {:induction false} LowUnion(s: set<nat>, t: set<nat>, n: nat)
    requires NodeIds(s) && NodeIds(t)
    ensures Low(Low(s, n) + t, n) == Low(s + t, n)
  {
    LowIsTop(s, n);
    LowIsTop(Low(s, n) + t, n);
    LowIsTop(s + t, n);
    FlipUnion(s, t);
    FlipUnion(Low(s, n), t);
    T.TopUnion(Flip(s), Flip(t), n);
    FlipInjective(Low(Low(s, n) + t, n), Low(s + t, n));
  }

  lemma {:induction false} LowAll(s: set<nat>, n: nat)
    requires |s| <= n
    ensures Low(s, n) == s
  {
    forall x | x in s ensures |Below(s, x)| < n {
      assert Below(s, x) <= s - {x};
      S.SubsetSize(Below(s, x), s - {x});
    }
  }

  lemma {:induction false} LowMonotone(s: set<nat>, t: set<nat>, n: nat, x: nat)
    requires s <= t && x in s && x in Low(t, n)
    ensures x in Low(s, n)
  {
    S.SubsetSize(Below(s, x), Below(t, x));
  }

  // ----- joining slots -----------------------------------------------------

  predicate SlotsOk(slots: seq<Slot>) {
    Sorted(slots) && NodeIds(Ids(slots)) && |slots| <= MAX_SLOTS
  }

  lemma {:induction false} IdsSnoc(front: seq<Slot>, last: Slot)
    ensures Ids(front + [last]) == Ids(front) + {last.node}
  {
    var s := front + [last];
    forall n ensures n in Ids(s) <==> n in Ids(front) || n == last.node {
      if n in Ids(front) { var x :| x in front && x.node == n; assert x in s; }
      assert last in s;
    }
  }

  lemma {:induction false} GetSnoc(front: seq<Slot>, last: Slot, n: nat)
    requires last.node !in Ids(front)
    ensures Get(front + [last], n) == if n == last.node then last.amount else Get(front, n)
  {
    var s := front + [last];
    if front == [] {
      assert s == [last] && s[1..] == [];
    } else {
      IdsCons(front);
      assert s[0] == front[0] && s[1..] == front[1..] + [last];
      GetSnoc(front[1..], last, n);
    }
  }

  lemma {:induction false} SortedFront(slots: seq<Slot>)
    requires Sorted(slots) && slots != []
    ensures Sorted(slots[..|slots| - 1]) && slots[|slots| - 1].node !in Ids(slots[..|slots| - 1])
  {
    var last := slots[|slots| - 1].node;
    forall x | x in slots[..|slots| - 1] ensures x.node < last {}
  }

  lemma {:induction false} RaiseMeaning(slots: seq<Slot>, s: Slot)
    requires Sorted(slots)
    ensures Sorted(Raise(slots, s)) && Ids(Raise(slots, s)) == Ids(slots) + {s.node}
    ensures Get(Raise(slots, s), s.node) == Larger(Get(slots, s.node), s.amount)
    ensures forall n :: n != s.node ==> Get(Raise(slots, s), n) == Get(slots, n)
  {
    UpsertIds(slots, s.node, x => Larger(x, s.amount));
    UpsertSorted(slots, s.node, x => Larger(x, s.amount));
    forall n ensures Get(Raise(slots, s), n) == if n == s.node then Larger(Get(slots, n), s.amount) else Get(slots, n) {
      UpsertGet(slots, s.node, x => Larger(x, s.amount), n);
    }
  }

  lemma {:induction false} RaisedSnoc(a: seq<Slot>, front: seq<Slot>, last: Slot)
    ensures Raised(a, front + [last]) == Raise(Raised(a, front), last)
  {
    assert (front + [last])[..|front|] == front;
  }

  lemma {:induction false} RaisedIds(a: seq<Slot>, b: seq<Slot>)
    requires Sorted(a)
    ensures Sorted(Raised(a, b)) && Ids(Raised(a, b)) == Ids(a) + Ids(b)
  {
    if b == [] {
      NoSlots(b);
    } else {
      var front, last := b[..|b| - 1], b[|b| - 1];
      assert b == front + [last];
      RaisedIds(a, front);
      RaisedSnoc(a, front, last);
      RaiseMeaning(Raised(a, front), last);
      IdsSnoc(front, last);
    }
  }

  lemma {:induction false} RaisedGet(a: seq<Slot>, b: seq<Slot>, n: nat)
    requires Sorted(a) && Sorted(b)
    ensures Get(Raised(a, b), n) == Larger(Get(a, n), Get(b, n))
  {
    if b != [] {
      var front, last := b[..|b| - 1], b[|b| - 1];
      assert b == front + [last];
      SortedFront(b);
      RaisedIds(a, front);
      RaisedGet(a, front, n);
      RaisedSnoc(a, front, last);
      RaiseMeaning(Raised(a, front), last);
      GetSnoc(front, last, n);
      GetMissing(front, last.node);
    }
  }

  lemma {:induction false} IdsSize(slots: seq<Slot>)
    requires Sorted(slots)
    ensures |Ids(slots)| == |slots|
  {
    if slots != [] {
      AfterFirst(slots);
      IdsCons(slots);
      IdsSize(slots[1..]);
    }
  }

  lemma {:induction false} GetPrefix(slots: seq<Slot>, k: nat, n: nat)
    requires k <= |slots| && n in Ids(slots[..k])
    ensures Get(slots[..k], n) == Get(slots, n)
  {
    var p := slots[..k];
    NoSlots(p);
    IdsCons(p);
    assert p[1..] == slots[1..][..k - 1];
    if p[0].node != n { GetPrefix(slots[1..], k - 1, n); }
  }

  lemma {:induction false} IdsAt(slots: seq<Slot>, n: nat)
    ensures n in Ids(slots) <==> exists i :: 0 <= i < |slots| && slots[i].node == n
  {
    if n in Ids(slots) {
      var x :| x in slots && x.node == n;
      var i :| 0 <= i < |slots| && slots[i] == x;
    }
    if i :| 0 <= i < |slots| && slots[i].node == n { assert slots[i] in slots; }
  }

  lemma {:induction false} BelowPrefix(slots: seq<Slot>, i: nat)
    requires Sorted(slots) && i < |slots|
    ensures |Below(Ids(slots), slots[i].node)| == i
  {
    var p := slots[..i];
    forall n: nat ensures n in Below(Ids(slots), slots[i].node) <==> n in Ids(p) {
      IdsAt(slots, n);
      IdsAt(p, n);
      if j :| 0 <= j < |slots| && slots[j].node == n && n < slots[i].node { assert p[j].node == n; }
      if j :| 0 <= j < |p| && p[j].node == n { assert slots[j].node == n; }
    }
    assert Below(Ids(slots), slots[i].node) == Ids(p);
    IdsSize(p);
  }

  /** Cutting ordered slots keeps those of the lowest node ids. */
  lemma {:induction false} TruncateIds(slots: seq<Slot>)
    requires Sorted(slots)
    ensures Sorted(Truncate(slots)) && Ids(Truncate(slots)) == Low(Ids(slots), MAX_SLOTS)
  {
    var t := Truncate(slots);
    forall n: nat ensures n in Ids(t) <==> n in Low(Ids(slots), MAX_SLOTS) {
      IdsAt(slots, n);
      IdsAt(t, n);
      if i :| 0 <= i < |slots| && slots[i].node == n {
        BelowPrefix(slots, i);
        if i < MAX_SLOTS { assert t[i].node == n; }
      }
      if j :| 0 <= j < |t| && t[j].node == n { assert slots[j].node == n; }
    }
  }

  function Joined(a: seq<Slot>, b: seq<Slot>): seq<Slot> {
    Truncate(Raised(a, b))
  }

  /** Joined slots belong to the lowest ids of both sides, each with the larger amounts. */
  lemma {:induction false} JoinedMeaning(a: seq<Slot>, b: seq<Slot>)
    requires SlotsOk(a) && SlotsOk(b)
    ensures SlotsOk(Joined(a, b)) && Ids(Joined(a, b)) == Low(Ids(a) + Ids(b), MAX_SLOTS)
    ensures forall n :: n in Ids(Joined(a, b)) ==> Get(Joined(a, b), n) == Larger(Get(a, n), Get(b, n))
  {
    var r := Raised(a, b);
    RaisedIds(a, b);
    TruncateIds(r);
    forall n | n in Ids(Joined(a, b)) ensures Get(Joined(a, b), n) == Larger(Get(a, n), Get(b, n)) {
      RaisedGet(a, b, n);
      if |r| > MAX_SLOTS { GetPrefix(r, MAX_SLOTS, n); }
    }
  }

  lemma {:induction false} JoinedCommutes(a: seq<Slot>, b: seq<Slot>)
    requires SlotsOk(a) && SlotsOk(b)
    ensures Joined(a, b) == Joined(b, a)
  {
    JoinedMeaning(a, b);
    JoinedMeaning(b, a);
    assert Ids(a) + Ids(b) == Ids(b) + Ids(a);
    SlotsUnique(Joined(a, b), Joined(b, a));
  }

  lemma {:induction false} JoinedIdempotent(a: seq<Slot>)
    requires SlotsOk(a)
    ensures Joined(a, a) == a
  {
    JoinedMeaning(a, a);
    IdsSize(a);
    assert Ids(a) + Ids(a) == Ids(a);
    LowAll(Ids(a), MAX_SLOTS);
    SlotsUnique(Joined(a, a), a);
  }

  /** An id that survives the last cut kept its amounts through an earlier one. */
  lemma {:induction false} GetThroughCut(a: seq<Slot>, b: seq<Slot>, all: set<nat>, n: nat)
    requires SlotsOk(a) && SlotsOk(b) && Ids(a) + Ids(b) <= all && n in Low(all, MAX_SLOTS)
    ensures Get(Joined(a, b), n) == Larger(Get(a, n), Get(b, n))
  {
    JoinedMeaning(a, b);
    if n in Ids(a) + Ids(b) {
      LowMonotone(Ids(a) + Ids(b), all, MAX_SLOTS, n);
    } else {
      GetMissing(a, n);
      GetMissing(b, n);
      GetMissing(Joined(a, b), n);
    }
  }

  lemma {:induction false} JoinedTwice(a: seq<Slot>, b: seq<Slot>, c: seq<Slot>)
    requires SlotsOk(a) && SlotsOk(b) && SlotsOk(c)
    ensures var r := Joined(Joined(a, b), c); var all := Ids(a) + Ids(b) + Ids(c);
      && SlotsOk(r) && Ids(r) == Low(all, MAX_SLOTS)
      && forall n :: n in Ids(r) ==> Get(r, n) == Larger(Larger(Get(a, n), Get(b, n)), Get(c, n))
  {
    JoinedMeaning(a, b);
    var r, all := Joined(Joined(a, b), c), Ids(a) + Ids(b) + Ids(c);
    JoinedMeaning(Joined(a, b), c);
    LowUnion(Ids(a) + Ids(b), Ids(c), MAX_SLOTS);
    forall n | n in Ids(r) ensures Get(r, n) == Larger(Larger(Get(a, n), Get(b, n)), Get(c, n)) {
      GetThroughCut(a, b, all, n);
    }
  }

  lemma {:induction false} JoinedAssociates(a: seq<Slot>, b: seq<Slot>, c: seq<Slot>)
    requires SlotsOk(a) && SlotsOk(b) && SlotsOk(c)
    ensures Joined(Joined(a, b), c) == Joined(a, Joined(b, c))
  {
    JoinedMeaning(b, c);
    JoinedCommutes(a, Joined(b, c));
    JoinedTwice(a, b, c);
    JoinedTwice(b, c, a);
    assert Ids(b) + Ids(c) + Ids(a) == Ids(a) + Ids(b) + Ids(c);
    SlotsUnique(Joined(Joined(a, b), c), Joined(Joined(b, c), a));
  }

  // ----- the merge is a semilattice ----------------------------------------

  /** A stored counter; a base version fixes the base value. */
  ghost predicate Ok(c: Counter, baseOf: nat -> int) {
    SlotsOk(c.slots) && c.base == baseOf(c.baseVersion)
  }

  lemma {:induction false} MergeOk(a: Counter, b: Counter, baseOf: nat -> int)
    requires Ok(a, baseOf) && Ok(b, baseOf)
    ensures Ok(Merge(a, b), baseOf)
  {
    JoinedMeaning(a.slots, b.slots);
  }

  lemma {:induction false} Commutes(a: Counter, b: Counter, baseOf: nat -> int)
    requires Ok(a, baseOf) && Ok(b, baseOf)
    ensures Merge(a, b) == Merge(b, a)
  {
    JoinedCommutes(a.slots, b.slots);
  }

  lemma {:induction false} Idempotent(a: Counter, baseOf: nat -> int)
    requires Ok(a, baseOf)
    ensures Merge(a, a) == a
  {
    JoinedIdempotent(a.slots);
  }

  lemma {:induction false} Associates(a: Counter, b: Counter, c: Counter, baseOf: nat -> int)
    requires Ok(a, baseOf) && Ok(b, baseOf) && Ok(c, baseOf)
    ensures Merge(Merge(a, b), c) == Merge(a, Merge(b, c))
  {
    JoinedAssociates(a.slots, b.slots, c.slots);
  }

  lemma {:induction false} Absorbs(a: Counter, b: Counter, baseOf: nat -> int)
    requires Ok(a, baseOf) && Ok(b, baseOf)
    ensures Merge(a, Merge(a, b)) == Merge(a, b)
  {
    Associates(a, a, b, baseOf);
    Idempotent(a, baseOf);
  }
}
