/** Stored records of all convergent kinds, and anti-entropy between replicas that hold them. */
module Convergence {
  import O = OrElements
  import W = OrLaws
  import C = Counters
  import L = CounterLaws
  import A = AntiEntropy

  type Key = seq<nat>

  /** A last-writer-wins register, an observed-remove element, or a counter. */
  datatype Stored =
    | Register(version: nat, body: seq<nat>)
    | Element(record: O.Record)
    | Count(version: nat, ttl: nat, counter: C.Counter)

  function Version(r: Stored): nat {
    if r.Element? then r.record.version else r.version
  }

  /** The clock part of a version. */
  function Hlc(r: Stored): nat {
    Version(r) / 0x1_0000
  }

  function MergeCounters(l: Stored, i: Stored): Stored
    requires l.Count? && i.Count?
  {
    Count(O.Max(l.version, i.version), if i.version > l.version then i.ttl else l.ttl, C.Merge(l.counter, i.counter))
  }

  function MergeStored(local: Stored, incoming: Stored): Stored {
    if local.Count? && incoming.Count? then MergeCounters(local, incoming)
    else if local.Element? && incoming.Element? then Element(O.Merge(local.record, incoming.record))
    else if Version(incoming) > Version(local) then incoming
    else local
  }

  // ----- what is written under a key ---------------------------------------

  /** A key holds elements, or whole values: registers and counters that replace each other. */
  datatype Kind = Values | Elements

  /** The kind of a key, and what each version, dot and base version written under it stands for. */
  datatype Meaning =
    Meaning(kind: Kind, isCount: nat -> bool, world: W.World, bodyOf: nat -> seq<nat>, baseOf: nat -> int)

  ghost predicate Ok(e: Meaning, r: Stored) {
    match r
    case Register(v, body) => e.kind.Values? && !e.isCount(v) && body == e.bodyOf(v)
    case Element(rec) => e.kind.Elements? && W.Ok(rec, e.world) && W.Plain(rec)
    case Count(v, ttl, c) => e.kind.Values? && e.isCount(v) && ttl == e.world.ttlOf(v) && L.Ok(c, e.baseOf)
  }

  lemma {:induction false} HlcOfMax(v: nat, w: nat)
    ensures O.Max(v, w) / 0x1_0000 == O.Max(v / 0x1_0000, w / 0x1_0000)
  {}

  /** The merge of records of one key is commutative, idempotent and absorbing, and carries the larger clock. */
  lemma {:induction false} MergeLaws(e: Meaning, a: Stored, b: Stored)
    requires Ok(e, a) && Ok(e, b)
    ensures Ok(e, MergeStored(a, b)) && MergeStored(a, a) == a
    ensures MergeStored(a, b) == MergeStored(b, a) && MergeStored(a, MergeStored(a, b)) == MergeStored(a, b)
    ensures Hlc(MergeStored(a, b)) == O.Max(Hlc(a), Hlc(b))
  {
    HlcOfMax(Version(a), Version(b));
    if a.Element? {
      W.MergeMeaning(a.record, b.record, e.world);
      W.Commutes(a.record, b.record, e.world);
      W.Idempotent(a.record, e.world);
      W.Absorbs(a.record, b.record, e.world);
    } else if a.Count? && b.Count? {
      CounterMergeLaws(e, a, b);
    } else if a.Count? {
      L.Idempotent(a.counter, e.baseOf);
    } else if b.Count? {
      L.Idempotent(b.counter, e.baseOf);
    }
  }

  lemma {:induction false} CounterMergeLaws(e: Meaning, a: Stored, b: Stored)
    requires Ok(e, a) && Ok(e, b) && a.Count? && b.Count?
    ensures Ok(e, MergeStored(a, b)) && MergeStored(a, a) == a
    ensures MergeStored(a, b) == MergeStored(b, a) && MergeStored(a, MergeStored(a, b)) == MergeStored(a, b)
  {
    L.MergeOk(a.counter, b.counter, e.baseOf);
    L.Commutes(a.counter, b.counter, e.baseOf);
    L.Idempotent(a.counter, e.baseOf);
    L.Absorbs(a.counter, b.counter, e.baseOf);
  }

  lemma {:induction false} StoredCarries(spec: Key -> Meaning, ok: (Key, Stored) -> bool)
    requires forall k, r :: ok(k, r) <==> Ok(spec(k), r)
    ensures A.Carries(ok, Hlc, MergeStored)
  {
    forall k, a | ok(k, a) ensures MergeStored(a, a) == a { MergeLaws(spec(k), a, a); }
    forall k, a, b | ok(k, a) && ok(k, b)
      ensures && ok(k, MergeStored(a, b))
              && MergeStored(a, b) == MergeStored(b, a)
              && MergeStored(a, MergeStored(a, b)) == MergeStored(a, b)
              && Hlc(MergeStored(a, b)) == (if Hlc(a) >= Hlc(b) then Hlc(a) else Hlc(b))
    {
      MergeLaws(spec(k), a, b);
    }
  }

  /**
   * Two exchanges between two replicas of a bucket of registers, elements and
   * counters, with no writes in between, leave both with the join of what they
   * held, whichever side starts each exchange.
   */
  method Repair(x: map<Key, Stored>, y: map<Key, Stored>, late: Key -> bool, swap: bool, late': Key -> bool,
                ghost spec: Key -> Meaning)
    returns (x': map<Key, Stored>, y': map<Key, Stored>)
    requires forall k :: k in x ==> Ok(spec(k), x[k])
    requires forall k :: k in y ==> Ok(spec(k), y[k])
    ensures x' == y'
    ensures forall k :: A.At(x', k) == A.Join(A.At(x, k), A.At(y, k), MergeStored)
  {
    ghost var ok := (k: Key, r: Stored) => Ok(spec(k), r);
    StoredCarries(spec, ok);
    x', y' := A.TwoExchanges(x, y, late, swap, late', ok, Hlc, MergeStored);
  }
}
