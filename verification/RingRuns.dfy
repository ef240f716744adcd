/** Every interleaving of pushes, evictions and reads: a reader that never sees a gap misses and repeats nothing. */
module RingRuns {
  import opened RingBuffer

  /** A ring: everything pushed so far, of which the last `held` entries are still buffered. */
  datatype State = State(first: nat, log: seq<Entry>, held: nat)

  predicate Ok(s: State) {
    0 < s.first && s.held <= |s.log| && Consecutive(s.log, s.first)
  }

  function Buf(s: State): seq<Entry>
    requires s.held <= |s.log|
  {
    s.log[|s.log| - s.held..]
  }

  function Next(s: State): nat {
    s.first + |s.log|
  }

  datatype Event = Pushed(origin: nat, ops: seq<Op>, evicted: nat) | Read(max: nat)

  predicate Enabled(s: State, e: Event) {
    e.Pushed? ==> e.evicted <= s.held + |e.ops|
  }

  function After(s: State, e: Event): State
    requires Enabled(s, e)
  {
    match e
    case Pushed(origin, ops, evicted) => State(s.first, s.log + Stamped(origin, ops, Next(s)), s.held + |ops| - evicted)
    case Read(_) => s
  }

  /** A reader: its cursor, what it received, and whether it was ever told of a gap. */
  datatype Reader = Reader(cursor: nat, received: seq<Entry>, missed: bool)

  function Reads(s: State, r: Reader, e: Event): Reader
    requires Ok(s)
  {
    match e
    case Pushed(_, _, _) => r
    case Read(max) =>
      Extended(r, Batch(Buf(s), Next(s), r.cursor, max), r.missed || r.cursor + 1 < Next(s) - s.held)
  }

  // ----- slices ------------------------------------------------------------

  /** How many entries of a log are numbered up to a. */
  function Upto(log: seq<Entry>, first: nat, a: nat): (n: nat)
    ensures n <= |log|
  {
    if a < first then 0 else if a + 1 - first >= |log| then |log| else a + 1 - first
  }

  function Slice(log: seq<Entry>, lo: nat, hi: nat): seq<Entry>
    requires lo <= |log| && hi <= |log|
  {
    if lo <= hi then log[lo..hi] else []
  }

  /** In a log numbered consecutively, a range of numbers is a slice. */
  lemma {:induction false} BetweenIsSlice(log: seq<Entry>, first: nat, a: nat, b: nat)
    requires Consecutive(log, first)
    ensures Between(log, a, b) == Slice(log, Upto(log, first, a), Upto(log, first, b))
  {
    if log != [] {
      var front := log[..|log| - 1];
      BetweenIsSlice(front, first, a, b);
      SliceSnoc(front, log[|log| - 1], first, a, b);
      assert log == front + [log[|log| - 1]];
    }
  }

  lemma {:induction false} SliceSnoc(front: seq<Entry>, e: Entry, first: nat, a: nat, b: nat)
    requires e.seq_ == first + |front|
    ensures var log := front + [e];
      Slice(log, Upto(log, first, a), Upto(log, first, b)) ==
      (var s := Slice(front, Upto(front, first, a), Upto(front, first, b)); if a < e.seq_ <= b then s + [e] else s)
  {}

  lemma {:induction false} StampedConsecutive(s: State, origin: nat, ops: seq<Op>)
    requires Consecutive(s.log, s.first)
    ensures Consecutive(s.log + Stamped(origin, ops, Next(s)), s.first)
  {}

  lemma {:induction false} AfterOk(s: State, e: Event)
    requires Ok(s) && Enabled(s, e)
    ensures Ok(After(s, e))
  {
    if e.Pushed? { StampedConsecutive(s, e.origin, e.ops); }
  }

  // ----- one step ----------------------------------------------------------

  /** The reader holds exactly what was numbered from its start up to its cursor. */
  predicate Complete(s: State, start: nat, r: Reader) {
    start <= r.cursor && (r.cursor == start || r.cursor < Next(s)) && r.received == Between(s.log, start, r.cursor)
  }

  lemma {:induction false} BufConsecutive(log: seq<Entry>, first: nat, d: nat)
    requires Consecutive(log, first) && d <= |log|
    ensures Consecutive(log[d..], first + d)
  {
    var buf := log[d..];
    forall i | 0 <= i < |buf| ensures buf[i].seq_ == first + d + i { assert buf[i] == log[d + i]; }
  }

  lemma {:induction false} DropTwice(log: seq<Entry>, d: nat, lo: nat)
    requires d <= lo <= |log|
    ensures log[d..][lo - d..|log| - d] == log[lo..]
  {}

  lemma {:induction false} BehindCursor(log: seq<Entry>, first: nat, d: nat, c: nat)
    requires Consecutive(log, first) && d <= |log| && c + 1 >= first + d && 0 < first
    ensures Between(log[d..], c, first + |log|) == log[Upto(log, first, c)..]
  {
    BufConsecutive(log, first, d);
    BetweenIsSlice(log[d..], first + d, c, first + |log|);
    DropTwice(log, d, Upto(log, first, c));
  }

  lemma {:induction false} BatchFrom(log: seq<Entry>, first: nat, d: nat, c: nat, max: nat)
    requires d <= |log| && Between(log[d..], c, first + |log|) == log[Upto(log, first, c)..]
    ensures Batch(log[d..], first + |log|, c, max) == Take(log[Upto(log, first, c)..], max)
  {}

  /** Without a gap a read returns the entries right behind the cursor. */
  lemma {:induction false} BatchIs(s: State, c: nat, max: nat)
    requires Ok(s) && c + 1 >= Next(s) - s.held
    ensures Batch(Buf(s), Next(s), c, max) == Take(s.log[Upto(s.log, s.first, c)..], max)
  {
    BehindCursor(s.log, s.first, |s.log| - s.held, c);
    BatchFrom(s.log, s.first, |s.log| - s.held, c, max);
  }

  lemma {:induction false} TakeFrom(log: seq<Entry>, lo: nat, max: nat)
    requires lo <= |log|
    ensures var n := |Take(log[lo..], max)|;
      lo + n <= |log| && Take(log[lo..], max) == log[lo..lo + n] &&
        (n > 0 ==> Take(log[lo..], max)[n - 1] == log[lo + n - 1])
  {}

  lemma {:induction false} UptoExtends(log: seq<Entry>, first: nat, start: nat, c: nat, n: nat)
    requires start <= c && n > 0 && 0 < first && Upto(log, first, c) + n <= |log|
    ensures var lo := Upto(log, first, c);
      Upto(log, first, start) <= lo && Upto(log, first, first + lo + n - 1) == lo + n
  {}

  lemma {:induction false} BetweenExtends(log: seq<Entry>, first: nat, start: nat, c: nat, n: nat)
    requires Consecutive(log, first) && start <= c && n > 0 && 0 < first && Upto(log, first, c) + n <= |log|
    ensures var lo := Upto(log, first, c);
      Between(log, start, c) + log[lo..lo + n] == Between(log, start, first + lo + n - 1)
  {
    var lo, from := Upto(log, first, c), Upto(log, first, start);
    BetweenIsSlice(log, first, start, c);
    BetweenIsSlice(log, first, start, first + lo + n - 1);
    UptoExtends(log, first, start, c, n);
    JoinSlices(log, from, lo, lo + n);
  }

  lemma {:induction false} JoinSlices(log: seq<Entry>, from: nat, lo: nat, hi: nat)
    requires from <= lo <= hi <= |log|
    ensures Slice(log, from, lo) + log[lo..hi] == Slice(log, from, hi)
  {}

  /** What a reader has after a batch. */
  function Extended(r: Reader, batch: seq<Entry>, missed: bool): Reader {
    Reader(if batch == [] then r.cursor else batch[|batch| - 1].seq_, r.received + batch, missed)
  }

  lemma {:induction false} ExtendedComplete(s: State, start: nat, r: Reader, batch: seq<Entry>, missed: bool)
    requires Complete(s, start, r)
    requires batch != [] ==> var c := batch[|batch| - 1].seq_;
      r.cursor <= c < Next(s) && Between(s.log, start, r.cursor) + batch == Between(s.log, start, c)
    ensures Complete(s, start, Extended(r, batch, missed))
  {
    assert batch == [] ==> r.received + batch == r.received;
  }

  lemma {:induction false} TakenExtends(log: seq<Entry>, first: nat, start: nat, c: nat, max: nat)
    requires Consecutive(log, first) && start <= c && 0 < first
    ensures var batch := Take(log[Upto(log, first, c)..], max);
      batch != [] ==> var c' := batch[|batch| - 1].seq_;
        c <= c' < first + |log| && Between(log, start, c) + batch == Between(log, start, c')
  {
    var lo := Upto(log, first, c);
    TakeFrom(log, lo, max);
    var n := |Take(log[lo..], max)|;
    if n > 0 { BetweenExtends(log, first, start, c, n); }
  }

  lemma {:induction false} ReadComplete(s: State, start: nat, r: Reader, max: nat)
    requires Ok(s) && Complete(s, start, r) && r.cursor + 1 >= Next(s) - s.held
    ensures Complete(s, start, Reads(s, r, Read(max)))
  {
    BatchIs(s, r.cursor, max);
    TakenExtends(s.log, s.first, start, r.cursor, max);
    ExtendedComplete(s, start, r, Take(s.log[Upto(s.log, s.first, r.cursor)..], max),
      r.missed || r.cursor + 1 < Next(s) - s.held);
  }

  lemma {:induction false} BetweenKept(log: seq<Entry>, more: seq<Entry>, first: nat, start: nat, c: nat)
    requires Consecutive(log, first) && Consecutive(log + more, first) && start <= c &&
      (c == start || c < first + |log|)
    ensures Between(log + more, start, c) == Between(log, start, c)
  {
    var all := log + more;
    BetweenIsSlice(log, first, start, c);
    BetweenIsSlice(all, first, start, c);
    if c > start {
      var lo, hi := Upto(log, first, start), Upto(log, first, c);
      assert Upto(all, first, c) == hi && Upto(all, first, start) == lo;
      assert all[lo..hi] == log[lo..hi];
    }
  }

  lemma {:induction false} PushComplete(s: State, start: nat, r: Reader, e: Event)
    requires Ok(s) && Complete(s, start, r) && e.Pushed? && Enabled(s, e)
    ensures Complete(After(s, e), start, r)
  {
    AfterOk(s, e);
    BetweenKept(s.log, Stamped(e.origin, e.ops, Next(s)), s.first, start, r.cursor);
  }

  // ----- whole runs --------------------------------------------------------

  predicate Runs(s: State, events: seq<Event>)
    decreases |events|, 0
  {
    events == [] ||
    (Runs(s, events[..|events| - 1]) && Enabled(RingAfter(s, events[..|events| - 1]), events[|events| - 1]))
  }

  function RingAfter(s: State, events: seq<Event>): State
    requires Runs(s, events)
    decreases |events|, 1
  {
    if events == [] then s else After(RingAfter(s, events[..|events| - 1]), events[|events| - 1])
  }

  lemma {:induction false} RunOk(s: State, events: seq<Event>)
    requires Ok(s) && Runs(s, events)
    ensures Ok(RingAfter(s, events))
  {
    if events != [] {
      RunOk(s, events[..|events| - 1]);
      AfterOk(RingAfter(s, events[..|events| - 1]), events[|events| - 1]);
    }
  }

  ghost function ReaderAfter(s: State, start: nat, events: seq<Event>): Reader
    requires Ok(s) && Runs(s, events)
  {
    if events == [] then Reader(start, [], false)
    else
      var front := events[..|events| - 1];
      RunOk(s, front);
      Reads(RingAfter(s, front), ReaderAfter(s, start, front), events[|events| - 1])
  }

  /**
   * A reader that is never told of a gap has received every entry between its
   * start and its cursor, once and in order.
   */
  lemma {:induction false} ExactlyOnce(s: State, start: nat, events: seq<Event>)
    requires Ok(s) && s.log == [] && Runs(s, events) && !ReaderAfter(s, start, events).missed
    ensures Complete(RingAfter(s, events), start, ReaderAfter(s, start, events))
  {
    if events == [] {
      BetweenIsSlice(s.log, s.first, start, start);
    } else {
      var front, e := events[..|events| - 1], events[|events| - 1];
      ExactlyOnce(s, start, front);
      RunOk(s, front);
      var t, r := RingAfter(s, front), ReaderAfter(s, start, front);
      if e.Pushed? { PushComplete(t, start, r, e); } else { ReadComplete(t, start, r, e.max); }
    }
  }

  /** A read that asks for something gets the next entry whenever there is one. */
  lemma {:induction false} ReadAdvances(s: State, c: nat, max: nat)
    requires Ok(s) && s.first <= c + 1 && c + 1 < Next(s) && c + 1 >= Next(s) - s.held && max > 0
    ensures var batch := Batch(Buf(s), Next(s), c, max); batch != [] && batch[0].seq_ == c + 1
  {
    BatchIs(s, c, max);
  }

  // ----- the ring takes these steps ----------------------------------------

  ghost function StateOf(ring: Ring): State
    reads ring
  {
    State(ring.first, ring.log, |ring.buf|)
  }

  lemma {:induction false} ValidOk(ring: Ring)
    requires ring.Valid()
    ensures Ok(StateOf(ring)) && Buf(StateOf(ring)) == ring.buf && Next(StateOf(ring)) == ring.next
  {}

  lemma {:induction false} PushIsStep(s: State, origin: nat, ops: seq<Op>, kept: nat)
    requires kept <= s.held + |ops|
    ensures var e := Pushed(origin, ops, s.held + |ops| - kept);
      Enabled(s, e) && After(s, e) == State(s.first, s.log + Stamped(origin, ops, Next(s)), kept)
  {}

  /** A push of the ring is a push step that evicts what trimming drops. */
  method PushStep(ring: Ring, origin: nat, ops: seq<Op>) returns (ghost e: Event)
    requires ring.Valid()
    modifies ring
    ensures ring.Valid() && e.Pushed? && Enabled(old(StateOf(ring)), e) && StateOf(ring) == After(old(StateOf(ring)), e)
    ensures e.origin == origin && e.ops == ops
  {
    ghost var s := StateOf(ring);
    ring.Push(origin, ops);
    e := Pushed(origin, ops, s.held + |ops| - |ring.buf|);
    PushIsStep(s, origin, ops, |ring.buf|);
  }

  /** A read of the ring is a read step. */
  method ReadStep(ring: Ring, r: Reader, max: nat) returns (r': Reader)
    requires ring.Valid()
    ensures Ok(StateOf(ring)) && r' == Reads(StateOf(ring), r, Read(max))
  {
    ValidOk(ring);
    var out, gap := ring.ReadAfter(r.cursor, max);
    r' := Extended(r, out, r.missed || gap);
  }

  /** What the ring is asked to do. */
  datatype Request = Commit(origin: nat, ops: seq<Op>) | Poll(max: nat)

  /** The operations of all commits, numbered consecutively from `first` on. */
  function Committed(requests: seq<Request>, first: nat): seq<Entry> {
    if requests == [] then []
    else
      var front, last := Committed(requests[..|requests| - 1], first), requests[|requests| - 1];
      if last.Commit? then front + Stamped(last.origin, last.ops, first + |front|) else front
  }

  lemma {:induction false} CommittedNext(done: seq<Request>, next: Request, first: nat)
    ensures var front := Committed(done, first);
      Committed(done + [next], first) ==
      if next.Commit? then front + Stamped(next.origin, next.ops, first + |front|) else front
  {
    assert (done + [next])[..|done|] == done;
  }

  lemma {:induction false} RunSnoc(s: State, start: nat, events: seq<Event>, e: Event)
    requires Ok(s) && Runs(s, events) && Enabled(RingAfter(s, events), e)
    ensures Runs(s, events + [e]) && RingAfter(s, events + [e]) == After(RingAfter(s, events), e)
    ensures Ok(RingAfter(s, events)) &&
            ReaderAfter(s, start, events + [e]) == Reads(RingAfter(s, events), ReaderAfter(s, start, events), e)
  {
    assert (events + [e])[..|events|] == events;
    RunOk(s, events);
  }

  /** The ring and the reader are where a run of steps from s takes them. */
  ghost predicate Follows(s: State, start: nat, events: seq<Event>, t: State, r: Reader) {
    Ok(s) && Runs(s, events) && t == RingAfter(s, events) && r == ReaderAfter(s, start, events)
  }

  lemma {:induction false} FollowNone(s: State, start: nat)
    requires Ok(s)
    ensures Follows(s, start, [], s, Reader(start, [], false))
  {}

  lemma {:induction false} FollowPush(s: State, start: nat, events: seq<Event>, t: State, r: Reader, e: Event)
    requires Follows(s, start, events, t, r) && e.Pushed? && Enabled(t, e)
    ensures Follows(s, start, events + [e], After(t, e), r)
  {
    RunSnoc(s, start, events, e);
  }

  lemma {:induction false} FollowRead(s: State, start: nat, events: seq<Event>, t: State, r: Reader, max: nat)
    requires Follows(s, start, events, t, r) && Ok(t)
    ensures Follows(s, start, events + [Read(max)], t, Reads(t, r, Read(max)))
  {
    RunSnoc(s, start, events, Read(max));
  }

  /** The ring has logged the commits among the requests done, and ring and reader follow the steps taken. */
  ghost predicate Serving(s: State, start: nat, done: seq<Request>, events: seq<Event>, t: State, r: Reader) {
    Follows(s, start, events, t, r) && t.first == s.first && t.log == Committed(done, s.first)
  }

  lemma {:induction false} ServingPush(
      s: State, start: nat, done: seq<Request>, events: seq<Event>, t: State, r: Reader, e: Event)
    requires Serving(s, start, done, events, t, r) && e.Pushed? && Enabled(t, e)
    ensures Serving(s, start, done + [Commit(e.origin, e.ops)], events + [e], After(t, e), r)
  {
    CommittedNext(done, Commit(e.origin, e.ops), s.first);
    FollowPush(s, start, events, t, r, e);
  }

  lemma {:induction false} ServingRead(
      s: State, start: nat, done: seq<Request>, events: seq<Event>, t: State, r: Reader, max: nat)
    requires Serving(s, start, done, events, t, r) && Ok(t)
    ensures Serving(s, start, done + [Poll(max)], events + [Read(max)], t, Reads(t, r, Read(max)))
  {
    CommittedNext(done, Poll(max), s.first);
    FollowRead(s, start, events, t, r, max);
  }

  method ServeOne(ring: Ring, r: Reader, request: Request,
                  ghost s: State, ghost start: nat, ghost done: seq<Request>, ghost events: seq<Event>)
    returns (r': Reader, ghost e: Event)
    requires ring.Valid() && Serving(s, start, done, events, StateOf(ring), r)
    modifies ring
    ensures ring.Valid() && Serving(s, start, done + [request], events + [e], StateOf(ring), r')
  {
    ghost var t := StateOf(ring);
    match request
    case Commit(origin, ops) =>
      e := PushStep(ring, origin, ops);
      ServingPush(s, start, done, events, t, r, e);
      r' := r;
    case Poll(max) =>
      r' := ReadStep(ring, r, max);
      e := Read(max);
      ServingRead(s, start, done, events, t, r, max);
  }

  /** The first i requests. */
  predicate Done(done: seq<Request>, requests: seq<Request>, i: nat) {
    i <= |requests| && done == requests[..i]
  }

  lemma {:induction false} DoneNext(done: seq<Request>, requests: seq<Request>, i: nat)
    requires Done(done, requests, i) && i < |requests|
    ensures Done(done + [requests[i]], requests, i + 1)
  {}

  lemma {:induction false} DoneAll(done: seq<Request>, requests: seq<Request>)
    ensures Done(done, requests, |requests|) <==> done == requests
    ensures Done([], requests, 0)
  {}

  lemma {:induction false} ServeNone(s: State, start: nat)
    requires Ok(s) && s.log == []
    ensures Serving(s, start, [], [], s, Reader(start, [], false))
  {
    FollowNone(s, start);
  }

  lemma {:induction false} ServedAll(s: State, start: nat, done: seq<Request>, events: seq<Event>, t: State, r: Reader)
    requires s.log == [] && Serving(s, start, done, events, t, r)
    ensures t.log == Committed(done, s.first)
    ensures !r.missed ==> r.cursor >= start && r.received == Between(t.log, start, r.cursor)
  {
    if !r.missed { ExactlyOnce(s, start, events); }
  }

  /**
   * Serving any requests from a new ring, the ring has logged the operations of
   * all commits in order, and a reader that is told of no gap gets every one
   * after its start exactly once.
   */
  method Serve(firstSeq: nat, start: nat, requests: seq<Request>) returns (ring: Ring, r: Reader)
    ensures ring.Valid() && ring.log == Committed(requests, if firstSeq >= 1 then firstSeq else 1)
    ensures !r.missed ==> r.cursor >= start && r.received == Between(ring.log, start, r.cursor)
  {
    ring := new Ring(firstSeq);
    r := Reader(start, [], false);
    ghost var s, events: seq<Event>, done: seq<Request> := StateOf(ring), [], [];
    ValidOk(ring);
    ServeNone(s, start);
    DoneAll(done, requests);
    for i := 0 to |requests|
      invariant fresh(ring) && ring.Valid() && Done(done, requests, i)
      invariant Serving(s, start, done, events, StateOf(ring), r)
    {
      ghost var e;
      r, e := ServeOne(ring, r, requests[i], s, start, done, events);
      DoneNext(done, requests, i);
      done, events := done + [requests[i]], events + [e];
    }
    DoneAll(done, requests);
    ServedAll(s, start, requests, events, StateOf(ring), r);
  }
}
