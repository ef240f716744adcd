/**
 * PN counters: a base register and, per node, how much that node has added and
 * taken away since. Slots are kept in ascending node order.
 *
 * A base version (hlc, origin) is written as one number, as record versions are.
 */
module Counters {
  import opened Options

  const MAX_SLOTS: nat := 255
  const U64_MAX: nat := 0xFFFF_FFFF_FFFF_FFFF
  const NODE_MAX: nat := 0xFFFF

  datatype Amount = Amount(pos: nat, neg: nat)

  datatype Slot = Slot(node: nat, amount: Amount)

  datatype Counter = Counter(baseVersion: nat, base: int, slots: seq<Slot>)

  // ----- slots -------------------------------------------------------------

  predicate Sorted(slots: seq<Slot>) {
    forall i, j :: 0 <= i < j < |slots| ==> slots[i].node < slots[j].node
  }

  function Ids(slots: seq<Slot>): set<nat> {
    set s | s in slots :: s.node
  }

  /** What a node has contributed; nothing without a slot. */
  function Get(slots: seq<Slot>, node: nat): Amount {
    if slots == [] then Amount(0, 0)
    else if slots[0].node == node then slots[0].amount
    else Get(slots[1..], node)
  }

  /** Change the slot of a node, which is inserted in order when missing. */
  function Upsert(slots: seq<Slot>, node: nat, change: Amount -> Amount): seq<Slot> {
    if slots == [] || node < slots[0].node then [Slot(node, change(Amount(0, 0)))] + slots
    else if slots[0].node == node then [Slot(node, change(slots[0].amount))] + slots[1..]
    else [slots[0]] + Upsert(slots[1..], node, change)
  }

  lemma {:induction false} IdsCons(slots: seq<Slot>)
    requires slots != []
    ensures Ids(slots) == {slots[0].node} + Ids(slots[1..])
  {
    assert slots == [slots[0]] + slots[1..];
    forall n ensures n in Ids(slots) <==> n == slots[0].node || n in Ids(slots[1..]) {
      if n in Ids(slots) { var s :| s in slots && s.node == n; assert s == slots[0] || s in slots[1..]; }
      if n in Ids(slots[1..]) { var s :| s in slots[1..] && s.node == n; assert s in slots; }
    }
    assert slots[0] in slots;
  }

  lemma {:induction false} UpsertIds(slots: seq<Slot>, node: nat, change: Amount -> Amount)
    ensures Ids(Upsert(slots, node, change)) == Ids(slots) + {node}
  {
    var r := Upsert(slots, node, change);
    IdsCons(r);
    if slots != [] {
      IdsCons(slots);
      if node < slots[0].node {
        assert r[1..] == slots;
      } else if slots[0].node == node {
        assert r[1..] == slots[1..];
      } else {
        UpsertIds(slots[1..], node, change);
        assert r[1..] == Upsert(slots[1..], node, change);
      }
    } else {
      assert r[1..] == slots;
    }
  }

  lemma {:induction false} SortedCons(first: Slot, rest: seq<Slot>)
    requires Sorted(rest) && forall n :: n in Ids(rest) ==> first.node < n
    ensures Sorted([first] + rest)
  {
    var r := [first] + rest;
    forall i, j | 0 <= i < j < |r| ensures r[i].node < r[j].node {
      assert r[j] in rest && r[j].node in Ids(rest);
    }
  }

  lemma {:induction false} AfterFirst(slots: seq<Slot>)
    requires Sorted(slots) && slots != []
    ensures Sorted(slots[1..]) && forall n :: n in Ids(slots[1..]) ==> slots[0].node < n
  {
    forall n | n in Ids(slots[1..]) ensures slots[0].node < n {
      var s :| s in slots[1..] && s.node == n;
      var i :| 0 <= i < |slots| - 1 && slots[1..][i] == s;
      assert slots[i + 1] == s;
    }
  }

  lemma {:induction false} UpsertSorted(slots: seq<Slot>, node: nat, change: Amount -> Amount)
    requires Sorted(slots)
    ensures Sorted(Upsert(slots, node, change))
  {
    if slots != [] {
      AfterFirst(slots);
      if node < slots[0].node {
        IdsCons(slots);
        SortedCons(Slot(node, change(Amount(0, 0))), slots);
      } else if slots[0].node == node {
        SortedCons(Slot(node, change(slots[0].amount)), slots[1..]);
      } else {
        UpsertSorted(slots[1..], node, change);
        UpsertIds(slots[1..], node, change);
        SortedCons(slots[0], Upsert(slots[1..], node, change));
      }
    }
  }

  lemma {:induction false} GetMissing(slots: seq<Slot>, node: nat)
    requires node !in Ids(slots)
    ensures Get(slots, node) == Amount(0, 0)
  {
    if slots != [] {
      IdsCons(slots);
      GetMissing(slots[1..], node);
    }
  }

  lemma {:induction false} UpsertGet(slots: seq<Slot>, node: nat, change: Amount -> Amount, n: nat)
    requires Sorted(slots)
    ensures Get(Upsert(slots, node, change), n) == if n == node then change(Get(slots, node)) else Get(slots, n)
  {
    var r := Upsert(slots, node, change);
    if slots == [] || node < slots[0].node {
      assert r[1..] == slots;
      if slots != [] { AfterFirst(slots); IdsCons(slots); }
      GetMissing(slots, node);
    } else if slots[0].node == node {
      assert r[1..] == slots[1..];
    } else {
      AfterFirst(slots);
      UpsertGet(slots[1..], node, change, n);
      assert r[1..] == Upsert(slots[1..], node, change);
    }
  }

  predicate SameSlots(a: seq<Slot>, b: seq<Slot>) {
    Ids(a) == Ids(b) && forall n :: n in Ids(a) ==> Get(a, n) == Get(b, n)
  }

  lemma {:induction false} SameFirst(a: seq<Slot>, b: seq<Slot>)
    requires Sorted(a) && Sorted(b) && SameSlots(a, b) && a != []
    ensures b != [] && a[0] == b[0]
  {
    IdsCons(a);
    assert a[0].node in Ids(b);
    assert b != [];
    IdsCons(b);
    AfterFirst(a);
    AfterFirst(b);
    assert b[0].node in Ids(a);
    assert a[0].node == b[0].node;
    assert Get(a, a[0].node) == Get(b, a[0].node);
  }

  lemma {:induction false} SameRest(a: seq<Slot>, b: seq<Slot>)
    requires Sorted(a) && Sorted(b) && SameSlots(a, b) && a != [] && b != [] && a[0] == b[0]
    ensures SameSlots(a[1..], b[1..])
  {
    IdsCons(a);
    IdsCons(b);
    AfterFirst(a);
    AfterFirst(b);
    assert Ids(a[1..]) == Ids(a) - {a[0].node} && Ids(b[1..]) == Ids(b) - {a[0].node};
    forall n | n in Ids(a[1..]) ensures Get(a[1..], n) == Get(b[1..], n) {
      assert n in Ids(a) && n != a[0].node;
      assert Get(a, n) == Get(b, n);
    }
  }

  lemma {:induction false} NoSlots(slots: seq<Slot>)
    ensures slots == [] <==> Ids(slots) == {}
  {
    if slots != [] { IdsCons(slots); }
  }

  /** Ordered slots are determined by who contributed what. */
  lemma {:induction false} SlotsUnique(a: seq<Slot>, b: seq<Slot>)
    requires Sorted(a) && Sorted(b) && SameSlots(a, b)
    ensures a == b
  {
    if a == [] {
      NoSlots(b);
    } else {
      SameFirst(a, b);
      SameRest(a, b);
      AfterFirst(a);
      AfterFirst(b);
      SlotsUnique(a[1..], b[1..]);
      assert a == [a[0]] + a[1..] && b == [b[0]] + b[1..];
    }
  }

  // ----- operations --------------------------------------------------------

  function OnBase(version: nat, base: int): Counter {
    Counter(version, base, [])
  }

  function Sum(slots: seq<Slot>): int {
    if slots == [] then 0 else slots[0].amount.pos - slots[0].amount.neg + Sum(slots[1..])
  }

  /** A number, or nothing when it does not fit a signed 64-bit integer. */
  function Fitting(v: int): Option<int> {
    if -0x8000_0000_0000_0000 <= v <= 0x7FFF_FFFF_FFFF_FFFF then Some(v) else None
  }

  /** What a client reads. */
  function Value(c: Counter): Option<int> {
    Fitting(c.base + Sum(c.slots))
  }

  function SaturatingAdd(x: nat, d: nat): nat {
    if x + d <= U64_MAX then x + d else U64_MAX
  }

  function Bumped(a: Amount, delta: int): Amount {
    if delta >= 0 then Amount(SaturatingAdd(a.pos, delta), a.neg)
    else Amount(a.pos, SaturatingAdd(a.neg, -delta))
  }

  /** Apply a local increment to a node's slot. */
  function Bump(c: Counter, node: nat, delta: int): Counter {
    c.(slots := Upsert(c.slots, node, a => Bumped(a, delta)))
  }

  function Max(x: nat, y: nat): nat {
    if x >= y then x else y
  }

  function Larger(a: Amount, b: Amount): Amount {
    Amount(Max(a.pos, b.pos), Max(a.neg, b.neg))
  }

  /** Raise one slot to at least the given amounts. */
  function Raise(slots: seq<Slot>, s: Slot): seq<Slot> {
    Upsert(slots, s.node, x => Larger(x, s.amount))
  }

  /** Raise the slots of a by those of b, one after the other. */
  function Raised(a: seq<Slot>, b: seq<Slot>): seq<Slot> {
    if b == [] then a else Raise(Raised(a, b[..|b| - 1]), b[|b| - 1])
  }

  function Truncate(slots: seq<Slot>): seq<Slot> {
    if |slots| <= MAX_SLOTS then slots else slots[..MAX_SLOTS]
  }

  method JoinSlots(a: seq<Slot>, b: seq<Slot>) returns (out: seq<Slot>)
    ensures out == Truncate(Raised(a, b))
  {
    out := a;
    for i := 0 to |b|
      invariant out == Raised(a, b[..i])
    {
      assert b[..i + 1][..i] == b[..i];
      out := Raise(out, b[i]);
    }
    assert b[..|b|] == b;
    if |out| > MAX_SLOTS {
      out := out[..MAX_SLOTS];
    }
  }

  function Merge(a: Counter, b: Counter): Counter {
    if a.baseVersion > b.baseVersion then a
    else if a.baseVersion < b.baseVersion then b
    else a.(slots := Truncate(Raised(a.slots, b.slots)))
  }

  /** The newer base wins with its slots; on one base each slot is the larger of the two. */
  method MergeCounters(a: Counter, b: Counter) returns (r: Counter)
    ensures r == Merge(a, b)
    ensures r.baseVersion == Max(a.baseVersion, b.baseVersion)
    ensures a.baseVersion > b.baseVersion ==> Value(r) == Value(a)
    ensures a.baseVersion < b.baseVersion ==> Value(r) == Value(b)
  {
    if a.baseVersion > b.baseVersion {
      return a;
    }
    if a.baseVersion < b.baseVersion {
      return b;
    }
    var slots := JoinSlots(a.slots, b.slots);
    r := a.(slots := slots);
  }
}
