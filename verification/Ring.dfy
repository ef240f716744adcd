/**
 * The bounded replication ring. Commits append entries, which the ring numbers
 * itself; the oldest entries are dropped when a cap is exceeded, and a reader
 * whose cursor has been overtaken is told of the gap.
 */
module RingBuffer {
  const RING_MAX_BYTES: nat := 128 * 1024 * 1024
  const RING_MAX_OPS: nat := 262_144

  datatype Op = Op(ikey: seq<nat>, value: seq<nat>)

  datatype Entry = Entry(seq_: nat, origin: nat, op: Op)

  function Size(op: Op): nat {
    |op.ikey| + |op.value| + 32
  }

  function Bytes(es: seq<Entry>): nat {
    if es == [] then 0 else Size(es[0].op) + Bytes(es[1..])
  }

  lemma {:induction false} BytesSnoc(es: seq<Entry>, e: Entry)
    ensures Bytes(es + [e]) == Bytes(es) + Size(e.op)
  {
    if es == [] {
      assert es + [e] == [e] && [e][1..] == [];
    } else {
      BytesSnoc(es[1..], e);
      assert (es + [e])[0] == es[0] && (es + [e])[1..] == es[1..] + [e];
    }
  }

  /** Both caps hold. */
  predicate Fits(es: seq<Entry>) {
    Bytes(es) <= RING_MAX_BYTES && |es| <= RING_MAX_OPS
  }

  /** Drop from the front until both caps hold. */
  function Trimmed(es: seq<Entry>): seq<Entry> {
    if Fits(es) then es else Trimmed(es[1..])
  }

  /** The last n entries. */
  function Last(es: seq<Entry>, n: nat): seq<Entry>
    requires n <= |es|
  {
    es[|es| - n..]
  }

  lemma {:induction false} LastOfRest(es: seq<Entry>, n: nat)
    requires n < |es|
    ensures Last(es[1..], n) == Last(es, n)
  {}

  lemma {:induction false} LastAll(es: seq<Entry>)
    ensures Last(es, |es|) == es
  {}

  /** r is the longest suffix of es within both caps. */
  predicate LongestFit(r: seq<Entry>, es: seq<Entry>) {
    && |r| <= |es| && r == Last(es, |r|) && Fits(r)
    && forall n :: |r| < n <= |es| ==> !Fits(Last(es, n))
  }

  lemma {:induction false} LongestStep(r: seq<Entry>, es: seq<Entry>)
    requires es != [] && LongestFit(r, es[1..]) && !Fits(es)
    ensures LongestFit(r, es)
  {
    LastOfRest(es, |r|);
    forall n | |r| < n <= |es| ensures !Fits(Last(es, n)) {
      if n == |es| { LastAll(es); } else { LastOfRest(es, n); }
    }
  }

  /** Trimming leaves the longest suffix within both caps. */
  lemma {:induction false} TrimmedLongest(es: seq<Entry>)
    ensures LongestFit(Trimmed(es), es)
  {
    if Fits(es) {
      LastAll(es);
    } else {
      TrimmedLongest(es[1..]);
      LongestStep(Trimmed(es[1..]), es);
    }
  }

  /** Operations of one commit, numbered from `next` on. */
  function Stamped(origin: nat, ops: seq<Op>, next: nat): (r: seq<Entry>)
    ensures |r| == |ops| && forall i :: 0 <= i < |ops| ==> r[i] == Entry(next + i, origin, ops[i])
  {
    if ops == [] then []
    else Stamped(origin, ops[..|ops| - 1], next) + [Entry(next + |ops| - 1, origin, ops[|ops| - 1])]
  }

  lemma {:induction false} StampedSnoc(origin: nat, ops: seq<Op>, next: nat, i: nat)
    requires i < |ops|
    ensures Stamped(origin, ops[..i + 1], next) == Stamped(origin, ops[..i], next) + [Entry(next + i, origin, ops[i])]
  {
    assert ops[..i + 1][..i] == ops[..i];
  }

  /** Sequence numbers are consecutive from `first` on. */
  predicate Consecutive(log: seq<Entry>, first: nat) {
    forall i {:trigger log[i].seq_} :: 0 <= i < |log| ==> log[i].seq_ == first + i
  }

  /** The entries numbered above a and up to b. */
  function Between(log: seq<Entry>, a: nat, b: nat): seq<Entry> {
    if log == [] then []
    else
      var front, e := Between(log[..|log| - 1], a, b), log[|log| - 1];
      if a < e.seq_ <= b then front + [e] else front
  }

  function Take(es: seq<Entry>, n: nat): seq<Entry> {
    if |es| <= n then es else es[..n]
  }

  /** What a reader at `after` gets from a buffer that ends just before `next`. */
  function Batch(buf: seq<Entry>, next: nat, after: nat, max: nat): seq<Entry> {
    Take(Between(buf, after, next), max)
  }

  class Ring {
    var buf: seq<Entry>
    var bytes: nat
    var next: nat
    /** Everything ever pushed, and the number of the first of it. */
    ghost var log: seq<Entry>
    ghost var first: nat

    ghost predicate Valid()
      reads this
    {
      && Consecutive(log, first) && next == first + |log| && 0 < first
      && |buf| <= |log| && buf == log[|log| - |buf|..] && bytes == Bytes(buf)
    }

    constructor (firstSeq: nat)
      ensures Valid() && buf == [] && log == [] && next == (if firstSeq >= 1 then firstSeq else 1)
    {
      buf, bytes := [], 0;
      next := if firstSeq >= 1 then firstSeq else 1;
      log := [];
      first := if firstSeq >= 1 then firstSeq else 1;
    }

    method AppendOne(origin: nat, op: Op)
      requires Valid()
      modifies this
      ensures Valid() && first == old(first) && next == old(next) + 1 &&
        buf == old(buf) + [Entry(old(next), origin, op)]
      ensures log == old(log) + [Entry(old(next), origin, op)]
    {
      var e := Entry(next, origin, op);
      BytesSnoc(buf, e);
      next := next + 1;
      bytes := bytes + Size(op);
      buf := buf + [e];
      log := log + [e];
    }

    method Append(origin: nat, ops: seq<Op>)
      requires Valid()
      modifies this
      ensures Valid() && first == old(first) && next == old(next) + |ops|
      ensures buf == old(buf) + Stamped(origin, ops, old(next))
      ensures log == old(log) + Stamped(origin, ops, old(next))
    {
      ghost var start := next;
      for i := 0 to |ops|
        invariant Valid() && first == old(first) && next == start + i
        invariant buf == old(buf) + Stamped(origin, ops[..i], start)
        invariant log == old(log) + Stamped(origin, ops[..i], start)
      {
        StampedSnoc(origin, ops, start, i);
        AppendOne(origin, ops[i]);
      }
      assert ops[..|ops|] == ops;
    }

    method DropOldest()
      requires Valid() && buf != []
      modifies this
      ensures Valid() && log == old(log) && first == old(first) && next == old(next) && buf == old(buf)[1..]
    {
      bytes := bytes - Size(buf[0].op);
      buf := buf[1..];
    }

    method Evict()
      requires Valid()
      modifies this
      ensures Valid() && log == old(log) && first == old(first) && next == old(next) && buf == Trimmed(old(buf))
    {
      while bytes > RING_MAX_BYTES || |buf| > RING_MAX_OPS
        invariant Valid() && log == old(log) && first == old(first) && next == old(next)
        invariant Trimmed(buf) == Trimmed(old(buf))
        decreases |buf|
      {
        DropOldest();
      }
    }

    /** Append the operations of one commit, then drop from the front until both caps hold. */
    method Push(origin: nat, ops: seq<Op>)
      requires Valid()
      modifies this
      ensures Valid() && first == old(first) && next == old(next) + |ops|
      ensures log == old(log) + Stamped(origin, ops, old(next))
      ensures buf == Trimmed(old(buf) + Stamped(origin, ops, old(next))) && |buf| <= |old(buf)| + |ops|
    {
      Append(origin, ops);
      TrimmedLongest(buf);
      Evict();
    }

    /** Up to `max` entries numbered above `after`, and whether earlier ones are gone. */
    method ReadAfter(after: nat, max: nat) returns (out: seq<Entry>, gap: bool)
      requires Valid()
      ensures out == Batch(buf, next, after, max)
      ensures gap <==> after + 1 < next - |buf|
    {
      var oldest := if buf == [] then next else buf[0].seq_;
      gap := after + 1 < oldest;
      out := [];
      for i := 0 to |buf|
        invariant out == Batch(buf[..i], next, after, max)
      {
        assert buf[..i + 1][..i] == buf[..i];
        if buf[i].seq_ > after && |out| < max {
          out := out + [buf[i]];
        }
      }
      assert buf[..|buf|] == buf;
    }

    method LastSeq() returns (last: nat)
      requires Valid()
      ensures last == next - 1
    {
      last := if buf == [] then next - 1 else buf[|buf| - 1].seq_;
    }
  }
}
