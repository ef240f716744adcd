/**
 * Merkle anti-entropy of one bucket between two replicas. The initiator sends a
 * summary of its records, the responder pushes what the initiator lacks or
 * holds older, and asks for what it lacks or holds older itself.
 *
 * Hashes of keys and of records stand for the keys and records themselves.
 */
module AntiEntropy {
  import opened Options

  datatype Summary<K, R> = Summary(key: K, hlc: nat, content: R)

  // ----- the responder's comparison ----------------------------------------

  /** Whether a record must travel to a peer that holds `theirs`. */
  predicate Ahead<R(==)>(mine: R, theirs: R, hlc: R -> nat) {
    hlc(mine) > hlc(theirs) || (hlc(mine) == hlc(theirs) && mine != theirs)
  }

  function At<K, R>(m: map<K, R>, k: K): Option<R> {
    if k in m then Some(m[k]) else None
  }

  /** Whether the holder of `mine` sends its record to a peer that holds `theirs`. */
  predicate Sends<R(==)>(mine: Option<R>, theirs: Option<R>, hlc: R -> nat) {
    mine.Some? && (theirs.None? || Ahead(mine.value, theirs.value, hlc))
  }

  ghost predicate Once<K(!new), R>(ops: seq<(K, R)>) {
    forall i, j :: 0 <= i < j < |ops| ==> ops[i].0 != ops[j].0
  }

  /** A scan lists every record of the bucket once. */
  ghost predicate Scans<K(!new), R>(scan: seq<(K, R)>, m: map<K, R>) {
    && Once(scan)
    && (forall i :: 0 <= i < |scan| ==> scan[i].0 in m && m[scan[i].0] == scan[i].1)
    && (forall k :: k in m ==> exists i :: 0 <= i < |scan| && scan[i].0 == k)
  }

  ghost predicate Summarizes<K(!new), R>(s: seq<Summary<K, R>>, m: map<K, R>, hlc: R -> nat) {
    && (forall i :: 0 <= i < |s| ==> s[i].key in m && m[s[i].key] == s[i].content && s[i].hlc == hlc(s[i].content))
    && (forall k :: k in m ==> exists i :: 0 <= i < |s| && s[i].key == k)
  }

  method BucketEntries<K(!new), R>(scan: seq<(K, R)>, hlc: R -> nat, ghost m: map<K, R>)
    returns (entries: seq<Summary<K, R>>)
    requires Scans(scan, m)
    ensures Summarizes(entries, m, hlc)
  {
    entries := [];
    for n := 0 to |scan|
      invariant |entries| == n
      invariant forall i :: 0 <= i < n ==> entries[i] == Summary(scan[i].0, hlc(scan[i].1), scan[i].1)
    {
      entries := entries + [Summary(scan[n].0, hlc(scan[n].1), scan[n].1)];
    }
    forall k | k in m ensures exists i :: 0 <= i < |entries| && entries[i].key == k {
      var i :| 0 <= i < |scan| && scan[i].0 == k;
      assert entries[i].key == k;
    }
  }

  /** The table a peer's summary is read into. */
  function Table<K, R>(m: map<K, R>, hlc: R -> nat): map<K, (nat, R)> {
    map k | k in m :: (hlc(m[k]), m[k])
  }

  method ReadTable<K(!new, ==), R(==)>(s: seq<Summary<K, R>>, ghost m: map<K, R>, hlc: R -> nat)
    returns (table: map<K, (nat, R)>)
    requires Summarizes(s, m, hlc)
    ensures table == Table(m, hlc)
  {
    table := map[];
    for n := 0 to |s|
      invariant forall k :: k in table ==> k in m && table[k] == (hlc(m[k]), m[k])
      invariant forall i :: 0 <= i < n ==> s[i].key in table
    {
      table := table[s[n].key := (s[n].hlc, s[n].content)];
    }
  }

  /** The scanned records a peer holding `theirs` is sent, in scan order. */
  function Pushed<K(==), R(==)>(scan: seq<(K, R)>, theirs: map<K, R>, hlc: R -> nat): seq<(K, R)> {
    if scan == [] then []
    else
      var front, last := Pushed(scan[..|scan| - 1], theirs, hlc), scan[|scan| - 1];
      if Sends(Some(last.1), At(theirs, last.0), hlc) then front + [last] else front
  }

  lemma {:induction false} PushedIs<K(!new), R(!new)>(scan: seq<(K, R)>, theirs: map<K, R>, hlc: R -> nat)
    ensures forall e :: e in Pushed(scan, theirs, hlc) <==> e in scan && Sends(Some(e.1), At(theirs, e.0), hlc)
  {
    if scan != [] {
      PushedIs(scan[..|scan| - 1], theirs, hlc);
      assert scan == scan[..|scan| - 1] + [scan[|scan| - 1]];
    }
  }

  lemma {:induction false} PushedOnce<K(!new), R(!new)>(scan: seq<(K, R)>, theirs: map<K, R>, hlc: R -> nat)
    requires Once(scan)
    ensures Once(Pushed(scan, theirs, hlc))
  {
    if scan != [] {
      var front := scan[..|scan| - 1];
      PushedOnce(front, theirs, hlc);
      PushedIs(front, theirs, hlc);
      var p, q := Pushed(front, theirs, hlc), Pushed(scan, theirs, hlc);
      forall i, j | 0 <= i < j < |q| ensures q[i].0 != q[j].0 {
        assert q[i] == p[i] && p[i] in front;
        if j < |p| { assert q[j] == p[j]; }
      }
    }
  }

  lemma {:induction false} PushedMeaning<K(!new), R(!new)>(scan: seq<(K, R)>, mine: map<K, R>, theirs: map<K, R>,
      hlc: R -> nat)
    requires Scans(scan, mine)
    ensures Pushes(Pushed(scan, theirs, hlc), mine, theirs, hlc)
  {
    PushedIs(scan, theirs, hlc);
    forall k, r ensures (k, r) in scan <==> k in mine && r == mine[k] {
      if k in mine && r == mine[k] {
        var i :| 0 <= i < |scan| && scan[i].0 == k;
        assert scan[i] == (k, r);
      }
    }
  }

  /** The pushed records are exactly those the peer lacks or holds behind. */
  ghost predicate Pushes<K(!new), R(!new)>(push: seq<(K, R)>, mine: map<K, R>, theirs: map<K, R>, hlc: R -> nat) {
    forall k, r :: (k, r) in push <==> Sends(At(mine, k), At(theirs, k), hlc) && r == mine[k]
  }

  /** The requested keys are exactly those held behind the peer, or not at all. */
  ghost predicate Wants<K(!new), R(!new)>(want: set<K>, mine: map<K, R>, theirs: map<K, R>, hlc: R -> nat) {
    forall k :: k in want <==> Sends(At(theirs, k), At(mine, k), hlc)
  }

  /** The first n scanned records have been noted. */
  ghost predicate Noted<K(!new), R(!new)>(scan: seq<(K, R)>, mine: map<K, R>, seen: map<K, (nat, R)>, hlc: R -> nat,
      n: nat) {
    && n <= |scan| && (forall k :: k in seen ==> k in mine && seen[k] == (hlc(mine[k]), mine[k]))
    && (forall i :: 0 <= i < n ==> scan[i].0 in seen)
  }

  lemma {:induction false} NoteNext<K(!new), R(!new)>(scan: seq<(K, R)>, mine: map<K, R>, seen: map<K, (nat, R)>,
      hlc: R -> nat, n: nat)
    requires Scans(scan, mine) && Noted(scan, mine, seen, hlc, n) && n < |scan|
    ensures Noted(scan, mine, seen[scan[n].0 := (hlc(scan[n].1), scan[n].1)], hlc, n + 1)
  {}

  method DiffBucket<K(!new, ==), R(==, !new)>(scan: seq<(K, R)>, summary: seq<Summary<K, R>>, hlc: R -> nat,
                                       ghost mine: map<K, R>, ghost theirs: map<K, R>)
    returns (push: seq<(K, R)>, want: set<K>)
    requires Scans(scan, mine) && Summarizes(summary, theirs, hlc)
    ensures Once(push) && Pushes(push, mine, theirs, hlc) && Wants(want, mine, theirs, hlc)
  {
    var table := ReadTable(summary, theirs, hlc);
    push := [];
    var seen: map<K, (nat, R)> := map[];
    for n := 0 to |scan|
      invariant push == Pushed(scan[..n], theirs, hlc) && Noted(scan, mine, seen, hlc, n)
    {
      var (k, v) := scan[n];
      NoteNext(scan, mine, seen, hlc, n);
      seen := seen[k := (hlc(v), v)];
      assert scan[..n + 1][..n] == scan[..n];
      if k !in table || hlc(v) > table[k].0 || (hlc(v) == table[k].0 && v != table[k].1) {
        push := push + [(k, v)];
      }
    }
    assert scan[..|scan|] == scan;
    PushedOnce(scan, theirs, hlc);
    PushedMeaning(scan, mine, theirs, hlc);
    SeenAll(scan, mine, seen, hlc);
    want := Wanted(seen, table);
    WantedMeaning(mine, theirs, hlc);
  }

  lemma {:induction false} SeenAll<K(!new), R(!new)>(scan: seq<(K, R)>, mine: map<K, R>, seen: map<K, (nat, R)>,
      hlc: R -> nat)
    requires Scans(scan, mine) && Noted(scan, mine, seen, hlc, |scan|)
    ensures seen == Table(mine, hlc)
  {
    forall k | k in mine ensures k in seen {
      var i :| 0 <= i < |scan| && scan[i].0 == k;
    }
  }

  lemma {:induction false} WantedMeaning<K(!new), R(!new)>(mine: map<K, R>, theirs: map<K, R>, hlc: R -> nat)
    ensures Wants(Wanted(Table(mine, hlc), Table(theirs, hlc)), mine, theirs, hlc)
  {
    var want := Wanted(Table(mine, hlc), Table(theirs, hlc));
    forall k ensures k in want <==> Sends(At(theirs, k), At(mine, k), hlc) {}
  }

  function Wanted<K(==), R(==)>(mine: map<K, (nat, R)>, theirs: map<K, (nat, R)>): set<K> {
    set k | k in theirs &&
      (k !in mine || mine[k].0 < theirs[k].0 || (mine[k].0 == theirs[k].0 && mine[k].1 != theirs[k].1))
  }

  /** Merging one incoming record: an absent key takes it as it is. */
  function Receive<R>(held: Option<R>, incoming: R, merge: (R, R) -> R): R {
    if held.None? then incoming else merge(held.value, incoming)
  }

  method ApplyOps<K(!new, ==), R(==, !new)>(m: map<K, R>, ops: seq<(K, R)>, merge: (R, R) -> R) returns (r: map<K, R>)
    requires Once(ops)
    ensures forall i :: 0 <= i < |ops| ==> ops[i].0 in r && r[ops[i].0] == Receive(At(m, ops[i].0), ops[i].1, merge)
    ensures forall k :: (forall i :: 0 <= i < |ops| ==> ops[i].0 != k) ==> At(r, k) == At(m, k)
  {
    r := m;
    for n := 0 to |ops|
      invariant forall i :: 0 <= i < n ==> ops[i].0 in r && r[ops[i].0] == Receive(At(m, ops[i].0), ops[i].1, merge)
      invariant forall k :: (forall i :: 0 <= i < n ==> ops[i].0 != k) ==> At(r, k) == At(m, k)
    {
      var (k, v) := ops[n];
      assert At(r, k) == At(m, k);
      r := r[k := Receive(At(r, k), v, merge)];
    }
  }

  /** A complete scan of a bucket, in whatever order the store keeps. */
  method Scan<K(!new, ==), R(==, !new)>(m: map<K, R>) returns (scan: seq<(K, R)>)
    ensures Scans(scan, m)
  {
    scan := [];
    var left := m.Keys;
    while left != {}
      invariant left <= m.Keys && Once(scan)
      invariant forall i :: 0 <= i < |scan| ==> scan[i].0 in m && m[scan[i].0] == scan[i].1 && scan[i].0 !in left
      invariant forall k :: k in m && k !in left ==> exists i :: 0 <= i < |scan| && scan[i].0 == k
      decreases |left|
    {
      var k :| k in left;
      ghost var before, was := scan, left;
      scan, left := scan + [(k, m[k])], left - {k};
      forall j | j in m && j !in left ensures exists i :: 0 <= i < |scan| && scan[i].0 == j {
        if j == k { assert scan[|before|].0 == j; } else {
          var i :| 0 <= i < |before| && before[i].0 == j;
          assert scan[i].0 == j;
        }
      }
    }
  }

  method RecordsByHash<K(!new, ==), R(==, !new)>(scan: seq<(K, R)>, want: set<K>, ghost m: map<K, R>)
    returns (ops: seq<(K, R)>)
    requires Scans(scan, m)
    ensures Once(ops) && forall k, r :: (k, r) in ops <==> k in want && k in m && r == m[k]
  {
    ops := [];
    for n := 0 to |scan|
      invariant Once(ops)
      invariant forall e :: e in ops ==> e in scan[..n] && e.0 in want
      invariant forall i :: 0 <= i < n && scan[i].0 in want ==> scan[i] in ops
    {
      assert scan[..n + 1] == scan[..n] + [scan[n]];
      if scan[n].0 in want {
        assert forall e :: e in ops ==> e.0 != scan[n].0;
        ops := ops + [scan[n]];
      }
    }
    forall k, r ensures (k, r) in ops <==> k in want && k in m && r == m[k] {
      if k in want && k in m && r == m[k] {
        var i :| 0 <= i < |scan| && scan[i].0 == k;
        assert scan[i] == (k, r);
      }
    }
  }

  // ----- one exchange, key by key ------------------------------------------

  function AfterInitiator<R(==)>(i: Option<R>, r: Option<R>, hlc: R -> nat, merge: (R, R) -> R): Option<R> {
    if Sends(r, i, hlc) then Some(Receive(i, r.value, merge)) else i
  }

  /** `late`: the initiator answers the request after it has applied the push. */
  function AfterResponder<R(==)>(i: Option<R>, r: Option<R>, late: bool, hlc: R -> nat, merge: (R, R) -> R): Option<R> {
    if Sends(i, r, hlc) then
      Some(Receive(r, if late then AfterInitiator(i, r, hlc, merge).value else i.value, merge))
    else r
  }

  /** Applying pushed or requested records updates exactly their keys. */
  lemma {:induction false} Applied<K(!new), R(!new)>(m: map<K, R>, ops: seq<(K, R)>, merge: (R, R) -> R,
      after: map<K, R>, k: K)
    requires forall i :: 0 <= i < |ops| ==>
      ops[i].0 in after && after[ops[i].0] == Receive(At(m, ops[i].0), ops[i].1, merge)
    requires forall j :: (forall i :: 0 <= i < |ops| ==> ops[i].0 != j) ==> At(after, j) == At(m, j)
    ensures forall r :: (k, r) in ops ==> At(after, k) == Some(Receive(At(m, k), r, merge))
    ensures (forall r :: (k, r) !in ops) ==> At(after, k) == At(m, k)
  {
    forall r | (k, r) in ops ensures At(after, k) == Some(Receive(At(m, k), r, merge)) {
      var i :| 0 <= i < |ops| && ops[i] == (k, r);
    }
    if forall r :: (k, r) !in ops {
      forall i | 0 <= i < |ops| ensures ops[i].0 != k {
        assert ops[i] == (ops[i].0, ops[i].1) && ops[i] in ops;
      }
    }
  }

  /** What the initiator answers from: its records, for some keys already with the push applied. */
  function Answering<K, R>(before: map<K, R>, after: map<K, R>, late: K -> bool): map<K, R> {
    map k | k in before :: if late(k) && k in after then after[k] else before[k]
  }

  /**
   * One exchange leaves at every key what the two records at that key determine,
   * whichever of the pushed records the initiator has applied when it answers.
   */
  method Exchange<K(!new, ==), R(==, !new)>(initiator: map<K, R>, responder: map<K, R>, late: K -> bool,
                                     hlc: R -> nat, merge: (R, R) -> R)
    returns (initiator': map<K, R>, responder': map<K, R>)
    ensures forall k :: At(initiator', k) == AfterInitiator(At(initiator, k), At(responder, k), hlc, merge)
    ensures forall k :: At(responder', k) == AfterResponder(At(initiator, k), At(responder, k), late(k), hlc, merge)
  {
    var mine := Scan(initiator);
    var summary := BucketEntries(mine, hlc, initiator);
    var theirs := Scan(responder);
    var push, want := DiffBucket(theirs, summary, hlc, responder, initiator);
    initiator' := ApplyOps(initiator, push, merge);
    forall k ensures At(initiator', k) == AfterInitiator(At(initiator, k), At(responder, k), hlc, merge) {
      Applied(initiator, push, merge, initiator', k);
      if Sends(At(responder, k), At(initiator, k), hlc) { assert (k, responder[k]) in push; }
    }
    var answering := Answering(initiator, initiator', late);
    var answer := Scan(answering);
    var reply := RecordsByHash(answer, want, answering);
    responder' := ApplyOps(responder, reply, merge);
    forall k ensures At(responder', k) == AfterResponder(At(initiator, k), At(responder, k), late(k), hlc, merge) {
      Applied(responder, reply, merge, responder', k);
      if Sends(At(initiator, k), At(responder, k), hlc) {
        assert k in initiator && k in answering;
        assert (k, answering[k]) in reply;
      }
    }
  }

  // ----- convergence -------------------------------------------------------

  /** What the convergence proof asks of a merge, on the records that occur under each key. */
  ghost predicate Carries<K(!new), R(!new)>(ok: (K, R) -> bool, hlc: R -> nat, merge: (R, R) -> R) {
    && (forall k, a :: ok(k, a) ==> merge(a, a) == a)
    && forall k, a, b :: ok(k, a) && ok(k, b) ==>
      && ok(k, merge(a, b))
      && merge(a, b) == merge(b, a)
      && merge(a, merge(a, b)) == merge(a, b)
      && hlc(merge(a, b)) == (if hlc(a) >= hlc(b) then hlc(a) else hlc(b))
  }

  function Join<R>(a: Option<R>, b: Option<R>, merge: (R, R) -> R): Option<R> {
    if a.None? then b else if b.None? then a else Some(merge(a.value, b.value))
  }

  ghost predicate AllOk<K(!new), R(!new)>(m: map<K, R>, ok: (K, R) -> bool) {
    forall k :: k in m ==> ok(k, m[k])
  }

  ghost predicate OptOk<K, R>(k: K, a: Option<R>, ok: (K, R) -> bool) {
    a.Some? ==> ok(k, a.value)
  }

  /**
   * After one exchange a key holds the join on both sides, or on one side while
   * the other keeps its record under the joined hlc.
   */
  ghost predicate Nearly<R(!new)>(a: Option<R>, b: Option<R>, x: Option<R>, y: Option<R>, hlc: R -> nat, merge: (R,
      R) -> R) {
    var j := Join(a, b, merge);
    || (x == j && y == j)
    || (a.Some? && b.Some? && j.Some? && x == j && y == b && hlc(b.value) == hlc(j.value))
    || (a.Some? && b.Some? && j.Some? && x == a && y == j && hlc(a.value) == hlc(j.value))
  }

  lemma {:induction false} FirstExchange<K(!new), R(!new)>(k: K, a: Option<R>, b: Option<R>, late: bool, ok: (K,
      R) -> bool, hlc: R -> nat, merge: (R, R) -> R)
    requires Carries(ok, hlc, merge) && OptOk(k, a, ok) && OptOk(k, b, ok)
    ensures Nearly(a, b, AfterInitiator(a, b, hlc, merge), AfterResponder(a, b, late, hlc, merge), hlc, merge)
  {
    if a.Some? && b.Some? {
      var (p, q) := (a.value, b.value);
      assert merge(p, q) == merge(q, p) && merge(q, merge(q, p)) == merge(q, p);
    }
  }

  lemma {:induction false} Absorbing<K(!new), R(!new)>(k: K, p: R, q: R, ok: (K, R) -> bool, hlc: R -> nat,
      merge: (R, R) -> R)
    requires Carries(ok, hlc, merge) && ok(k, p) && ok(k, q)
    ensures var j := merge(p, q); merge(p, j) == j && merge(j, p) == j && merge(q, j) == j && merge(j, q) == j
    ensures merge(q, p) == merge(p, q)
  {
    var j := merge(p, q);
    assert ok(k, j) && merge(q, p) == j;
    assert merge(p, merge(p, q)) == j && merge(q, merge(q, p)) == j;
    assert merge(j, p) == merge(p, j) && merge(j, q) == merge(q, j);
  }

  /** From there any exchange, started by either side, leaves the join on both sides. */
  lemma {:induction false} SecondExchange<K(!new), R(!new)>(k: K, a: Option<R>, b: Option<R>, x: Option<R>,
      y: Option<R>, late: bool,
                                ok: (K, R) -> bool, hlc: R -> nat, merge: (R, R) -> R)
    requires Carries(ok, hlc, merge) && OptOk(k, a, ok) && OptOk(k, b, ok) && Nearly(a, b, x, y, hlc, merge)
    ensures AfterInitiator(x, y, hlc, merge) == Join(a, b, merge) == AfterResponder(x, y, late, hlc, merge)
    ensures AfterInitiator(y, x, hlc, merge) == Join(a, b, merge) == AfterResponder(y, x, late, hlc, merge)
  {
    if a.Some? && b.Some? {
      Absorbing(k, a.value, b.value, ok, hlc, merge);
    }
  }

  /** Two exchanges, each started by either side, make two replicas equal: both hold the join at every key. */
  method TwoExchanges<K(!new, ==), R(==, !new)>(x: map<K, R>, y: map<K, R>, late: K -> bool, swap: bool,
      late': K -> bool,
                                         ghost ok: (K, R) -> bool, hlc: R -> nat, merge: (R, R) -> R)
    returns (x': map<K, R>, y': map<K, R>)
    requires Carries(ok, hlc, merge) && AllOk(x, ok) && AllOk(y, ok)
    ensures x' == y' && forall k :: At(x', k) == Join(At(x, k), At(y, k), merge)
  {
    var p, q := Exchange(x, y, late, hlc, merge);
    if swap {
      y', x' := Exchange(q, p, late', hlc, merge);
    } else {
      x', y' := Exchange(p, q, late', hlc, merge);
    }
    forall k ensures At(x', k) == Join(At(x, k), At(y, k), merge) == At(y', k) {
      FirstExchange(k, At(x, k), At(y, k), late(k), ok, hlc, merge);
      SecondExchange(k, At(x, k), At(y, k), At(p, k), At(q, k), late'(k), ok, hlc, merge);
    }
    EqualMaps(x', y');
  }

  lemma {:induction false} EqualMaps<K(!new), R>(x: map<K, R>, y: map<K, R>)
    requires forall k :: At(x, k) == At(y, k)
    ensures x == y
  {
    forall k ensures k in x <==> k in y { assert At(x, k) == At(y, k); }
    forall k | k in x ensures x[k] == y[k] { assert At(x, k) == At(y, k); }
  }

  /** Replicas differ at no key exactly when an exchange would move nothing. */
  lemma {:induction false} QuietIffEqual<K(!new), R(!new)>(x: map<K, R>, y: map<K, R>, hlc: R -> nat)
    ensures x == y <==> forall k :: !Sends(At(x, k), At(y, k), hlc) && !Sends(At(y, k), At(x, k), hlc)
  {
    if forall k :: !Sends(At(x, k), At(y, k), hlc) && !Sends(At(y, k), At(x, k), hlc) {
      forall k ensures At(x, k) == At(y, k) {
        assert !Sends(At(x, k), At(y, k), hlc) && !Sends(At(y, k), At(x, k), hlc);
      }
      EqualMaps(x, y);
    }
  }
}
