/**
 * Runs of a replicated counter. Each node bumps its own slot of its own
 * replica, sets it to a new base, and merges any state that any replica ever
 * had. Per base, `truths` is the counter one place would hold that saw every
 * increment made on it.
 */
module CounterRuns {
  import opened Counters
  import L = CounterLaws

  datatype System = System(truths: map<nat, Counter>, replicas: map<nat, Counter>, past: set<Counter>)

  datatype Step =
    | BumpAt(node: nat, delta: int)
    | MergeAt(node: nat, state: Counter)
    | ResetAt(node: nat, version: nat, base: int)

  function Start(nodes: set<nat>, version: nat, base: int): System {
    var c := OnBase(version, base);
    System(map[version := c], map n | n in nodes :: c, {c})
  }

  function Truth(s: System, version: nat): Counter {
    if version in s.truths then s.truths[version] else OnBase(version, 0)
  }

  /** The truth of the base a state is on. */
  function TruthOf(s: System, c: Counter): Counter {
    Truth(s, c.baseVersion)
  }

  /** The increment still fits the node's 64-bit slot. */
  predicate Fits(a: Amount, delta: int) {
    if delta >= 0 then a.pos + delta <= U64_MAX else a.neg - delta <= U64_MAX
  }

  /** A node sets a newer base than its own; two nodes that set one version read the same value. */
  predicate Enabled(s: System, step: Step) {
    && step.node in s.replicas
    && match step
       case BumpAt(n, delta) => Fits(Get(TruthOf(s, s.replicas[n]).slots, n), delta)
       case MergeAt(_, c) => c in s.past
       case ResetAt(n, v, base) => s.replicas[n].baseVersion < v && (v in s.truths ==> s.truths[v].base == base)
  }

  /** One replica changes its state. */
  function Changed(s: System, truths: map<nat, Counter>, n: nat, c: Counter): System {
    System(truths, s.replicas[n := c], s.past + {c})
  }

  function Next(s: System, step: Step): System
    requires Enabled(s, step)
  {
    var held := s.replicas[step.node];
    match step
    case BumpAt(n, delta) =>
      Changed(s, s.truths[held.baseVersion := Bump(TruthOf(s, held), n, delta)], n, Bump(held, n, delta))
    case MergeAt(n, state) => Changed(s, s.truths, n, Merge(held, state))
    case ResetAt(n, v, base) =>
      Changed(s, if v in s.truths then s.truths else s.truths[v := OnBase(v, base)], n, OnBase(v, base))
  }

  /** Whether the steps can run from s, and where they lead. */
  predicate Runs(s: System, steps: seq<Step>)
    decreases |steps|, 0
  {
    steps == [] || (Runs(s, steps[..|steps| - 1]) && Enabled(After(s, steps[..|steps| - 1]), steps[|steps| - 1]))
  }

  function After(s: System, steps: seq<Step>): System
    requires Runs(s, steps)
    decreases |steps|, 1
  {
    if steps == [] then s else Next(After(s, steps[..|steps| - 1]), steps[|steps| - 1])
  }

  /** What a step adds to the counter on one base. */
  function Added(s: System, step: Step, version: nat): int
    requires Enabled(s, step)
  {
    if step.BumpAt? && s.replicas[step.node].baseVersion == version then step.delta else 0
  }

  /** Everything the steps added on one base, less what they took away. */
  function Total(s: System, steps: seq<Step>, version: nat): int
    requires Runs(s, steps)
  {
    if steps == [] then 0
    else
      var front, last := steps[..|steps| - 1], steps[|steps| - 1];
      Total(s, front, version) + Added(After(s, front), last, version)
  }

  // ----- the invariant -----------------------------------------------------

  predicate LeAmount(a: Amount, b: Amount) {
    a.pos <= b.pos && a.neg <= b.neg
  }

  predicate Le(a: seq<Slot>, b: seq<Slot>) {
    Ids(a) <= Ids(b) && forall n :: n in Ids(a) ==> LeAmount(Get(a, n), Get(b, n))
  }

  /** A state of the truth's base that is ahead of no node. */
  predicate Behind(c: Counter, truth: Counter) {
    && c.baseVersion == truth.baseVersion && c.base == truth.base
    && L.SlotsOk(c.slots) && Le(c.slots, truth.slots)
  }

  /** A node that contributed to a base is still on it, with all it contributed, or on a newer one. */
  predicate OwnSlot(s: System, v: nat, n: nat) {
    && n in s.replicas && v <= s.replicas[n].baseVersion
    && (s.replicas[n].baseVersion == v ==>
          n in Ids(s.replicas[n].slots) && Get(s.replicas[n].slots, n) == Get(Truth(s, v).slots, n))
  }

  predicate TruthOk(s: System, v: nat) {
    && Truth(s, v).baseVersion == v && L.SlotsOk(Truth(s, v).slots)
    && Ids(Truth(s, v).slots) <= s.replicas.Keys
  }

  /** Some replica is on a base at least as new. */
  ghost predicate Established(s: System, v: nat) {
    || (exists n :: n in s.replicas && v <= s.replicas[n].baseVersion)
    || (forall c :: c in s.past ==> c.baseVersion == v)
  }

  ghost predicate TruthsOk(s: System) {
    forall v :: v in s.truths ==> TruthOk(s, v) && Established(s, v)
  }

  ghost predicate PastOk(s: System) {
    && (forall n :: n in s.replicas ==> s.replicas[n] in s.past)
    && (forall c :: c in s.past ==> c.baseVersion in s.truths && Behind(c, TruthOf(s, c)))
  }

  ghost predicate OwnOk(s: System) {
    forall v, n :: v in s.truths && n in Ids(Truth(s, v).slots) ==> OwnSlot(s, v, n)
  }

  ghost predicate Inv(s: System) {
    && |s.replicas.Keys| <= MAX_SLOTS && L.NodeIds(s.replicas.Keys)
    && TruthsOk(s) && PastOk(s) && OwnOk(s)
  }

  lemma {:induction false} StartInv(nodes: set<nat>, version: nat, base: int)
    requires |nodes| <= MAX_SLOTS && L.NodeIds(nodes)
    ensures Inv(Start(nodes, version, base))
  {
    var s := Start(nodes, version, base);
    assert s.replicas.Keys == nodes;
  }

  lemma {:induction false} LeTransitive(a: seq<Slot>, b: seq<Slot>, c: seq<Slot>)
    requires Le(a, b) && Le(b, c)
    ensures Le(a, c)
  {}

  function Grown(slots: seq<Slot>, n: nat, delta: int): seq<Slot> {
    Upsert(slots, n, a => Bumped(a, delta))
  }

  lemma {:induction false} GrownMeaning(slots: seq<Slot>, n: nat, delta: int)
    requires Sorted(slots)
    ensures Sorted(Grown(slots, n, delta)) && Ids(Grown(slots, n, delta)) == Ids(slots) + {n}
    ensures forall m :: Get(Grown(slots, n, delta), m) == if m == n then Bumped(Get(slots, n), delta) else Get(slots, m)
  {
    UpsertIds(slots, n, a => Bumped(a, delta));
    UpsertSorted(slots, n, a => Bumped(a, delta));
    forall m ensures Get(Grown(slots, n, delta), m) == if m == n then Bumped(Get(slots, n), delta) else Get(slots, m) {
      UpsertGet(slots, n, a => Bumped(a, delta), m);
    }
  }

  lemma {:induction false} GrownSize(slots: seq<Slot>, n: nat, delta: int, nodes: set<nat>)
    requires Sorted(slots) && Ids(slots) <= nodes && n in nodes && |nodes| <= MAX_SLOTS && L.NodeIds(nodes)
    ensures L.SlotsOk(Grown(slots, n, delta)) && Ids(Grown(slots, n, delta)) <= nodes
  {
    GrownMeaning(slots, n, delta);
    L.IdsSize(Grown(slots, n, delta));
    L.S.SubsetSize(Ids(slots) + {n}, nodes);
  }

  lemma {:induction false} BumpGrows(slots: seq<Slot>, n: nat, delta: int)
    requires Sorted(slots) && Fits(Get(slots, n), delta)
    ensures Le(slots, Grown(slots, n, delta))
  {
    GrownMeaning(slots, n, delta);
  }

  lemma {:induction false} BumpStaysBehind(c: seq<Slot>, truth: seq<Slot>, n: nat, delta: int)
    requires Sorted(c) && Sorted(truth) && Le(c, truth) && Get(c, n) == Get(truth, n) && Fits(Get(truth, n), delta)
    ensures Le(Grown(c, n, delta), Grown(truth, n, delta))
  {
    GrownMeaning(c, n, delta);
    GrownMeaning(truth, n, delta);
  }

  lemma {:induction false} LeGet(a: seq<Slot>, b: seq<Slot>, n: nat)
    requires Le(a, b)
    ensures LeAmount(Get(a, n), Get(b, n))
  {
    if n !in Ids(a) { GetMissing(a, n); }
  }

  /** The join of two states behind the truth is behind it, and behind neither of them. */
  lemma {:induction false} JoinBehind(a: Counter, b: Counter, truth: Counter)
    requires L.SlotsOk(truth.slots) && Behind(a, truth) && Behind(b, truth)
    ensures var c := Merge(a, b);
      Behind(c, truth) && Le(a.slots, c.slots) && Le(b.slots, c.slots)
  {
    var c := Merge(a, b);
    L.JoinedMeaning(a.slots, b.slots);
    L.IdsSize(truth.slots);
    L.S.SubsetSize(Ids(a.slots) + Ids(b.slots), Ids(truth.slots));
    L.LowAll(Ids(a.slots) + Ids(b.slots), MAX_SLOTS);
    forall n | n in Ids(c.slots) ensures LeAmount(Get(c.slots, n), Get(truth.slots, n)) {
      LeGet(a.slots, truth.slots, n);
      LeGet(b.slots, truth.slots, n);
    }
  }

  /** A node's own replica holds exactly what the node contributed on its base. */
  lemma {:induction false} OwnAmount(s: System, n: nat)
    requires Inv(s) && n in s.replicas
    ensures var c := s.replicas[n]; c.baseVersion in s.truths && TruthOk(s, c.baseVersion)
    ensures Behind(s.replicas[n], TruthOf(s, s.replicas[n]))
    ensures Get(s.replicas[n].slots, n) == Get(TruthOf(s, s.replicas[n]).slots, n)
  {
    var c := s.replicas[n];
    assert c in s.past;
    if n !in Ids(TruthOf(s, c).slots) {
      GetMissing(TruthOf(s, c).slots, n);
      GetMissing(c.slots, n);
    } else {
      assert OwnSlot(s, c.baseVersion, n);
    }
  }

  /** A state that replaces a node's own, on the same base or a newer one, without losing what the node did. */
  ghost predicate Keeps(s: System, n: nat, c: Counter)
    requires n in s.replicas
  {
    && s.replicas[n].baseVersion <= c.baseVersion && c.baseVersion in s.truths
    && Behind(c, TruthOf(s, c))
    && (s.replicas[n].baseVersion == c.baseVersion ==> Le(s.replicas[n].slots, c.slots))
  }

  lemma {:induction false} KeptOwn(s: System, n: nat, c: Counter, v: nat, m: nat)
    requires n in s.replicas && Keeps(s, n, c) && OwnSlot(s, v, m)
    ensures OwnSlot(Changed(s, s.truths, n, c), v, m)
  {
    var t := Changed(s, s.truths, n, c);
    assert Truth(t, v) == Truth(s, v);
    if m != n {
      assert t.replicas[m] == s.replicas[m];
    } else if c.baseVersion == v {
      SameAmount(s.replicas[n].slots, c.slots, Truth(s, v).slots, n);
    }
  }

  lemma {:induction false} SameAmount(a: seq<Slot>, b: seq<Slot>, c: seq<Slot>, n: nat)
    requires Le(a, b) && Le(b, c) && n in Ids(a) && Get(a, n) == Get(c, n)
    ensures n in Ids(b) && Get(b, n) == Get(c, n)
  {
    LeGet(a, b, n);
    LeGet(b, c, n);
  }

  lemma {:induction false} KeptEstablished(s: System, truths: map<nat, Counter>, n: nat, c: Counter, v: nat)
    requires n in s.replicas && s.replicas[n].baseVersion <= c.baseVersion
    requires Established(s, v) || v <= c.baseVersion
    requires forall m :: m in s.replicas ==> s.replicas[m] in s.past
    ensures Established(Changed(s, truths, n, c), v)
  {
    var t := Changed(s, truths, n, c);
    assert t.replicas[n] == c;
    if c.baseVersion < v {
      if m :| m in s.replicas && v <= s.replicas[m].baseVersion {
        assert t.replicas[m] == s.replicas[m];
      }
    }
  }

  /** Replacing a replica by a state that keeps what the node did keeps the invariant. */
  lemma {:induction false} KeptInv(s: System, n: nat, c: Counter)
    requires Inv(s) && n in s.replicas && Keeps(s, n, c)
    ensures Inv(Changed(s, s.truths, n, c))
  {
    var t := Changed(s, s.truths, n, c);
    assert t.replicas.Keys == s.replicas.Keys;
    forall v | v in t.truths ensures TruthOk(t, v) && Established(t, v) {
      assert TruthOk(s, v) && Truth(t, v) == Truth(s, v);
      KeptEstablished(s, s.truths, n, c, v);
    }
    forall d | d in t.past ensures d.baseVersion in t.truths && Behind(d, TruthOf(t, d)) {
      assert TruthOf(t, d) == TruthOf(s, d);
    }
    forall v, m | v in t.truths && m in Ids(Truth(t, v).slots) ensures OwnSlot(t, v, m) {
      assert Truth(t, v) == Truth(s, v) && OwnSlot(s, v, m);
      KeptOwn(s, n, c, v, m);
    }
  }

  // ----- steps -------------------------------------------------------------

  lemma {:induction false} MergeKeeps(s: System, n: nat, state: Counter)
    requires Inv(s) && n in s.replicas && state in s.past
    ensures Keeps(s, n, Merge(s.replicas[n], state))
  {
    var held := s.replicas[n];
    OwnAmount(s, n);
    if held.baseVersion == state.baseVersion { JoinBehind(held, state, TruthOf(s, held)); } else { LeSelf(held.slots); }
  }

  lemma {:induction false} LeSelf(a: seq<Slot>)
    ensures Le(a, a)
  {}

  lemma {:induction false} ResetInv(s: System, n: nat, v: nat, base: int)
    requires Inv(s) && Enabled(s, ResetAt(n, v, base))
    ensures Inv(Next(s, ResetAt(n, v, base)))
  {
    var c := OnBase(v, base);
    if v in s.truths {
      assert TruthOk(s, v);
      KeptInv(s, n, c);
    } else {
      OpenedInv(s, n, v, base);
    }
  }

  /** Setting a base for the first time leaves the other truths as they are. */
  lemma {:induction false} OpenedTruths(s: System, n: nat, v: nat, base: int, w: nat)
    requires Inv(s) && Enabled(s, ResetAt(n, v, base)) && v !in s.truths && w in s.truths
    ensures var t := Next(s, ResetAt(n, v, base)); w in t.truths && Truth(t, w) == Truth(s, w) && TruthOk(t, w)
  {
    assert TruthOk(s, w) && Next(s, ResetAt(n, v, base)).replicas.Keys == s.replicas.Keys;
  }

  lemma {:induction false} OpenedNew(s: System, n: nat, v: nat, base: int)
    requires Enabled(s, ResetAt(n, v, base)) && v !in s.truths
    ensures var t := Next(s, ResetAt(n, v, base));
      Truth(t, v) == OnBase(v, base) && TruthOk(t, v) && Ids(Truth(t, v).slots) == {} &&
      Behind(OnBase(v, base), Truth(t, v))
  {}

  lemma {:induction false} OpenedOwn(s: System, n: nat, v: nat, base: int, w: nat, m: nat)
    requires Enabled(s, ResetAt(n, v, base)) && OwnSlot(s, w, m) && w in s.truths && v !in s.truths
    ensures OwnSlot(Next(s, ResetAt(n, v, base)), w, m)
  {
    var t := Next(s, ResetAt(n, v, base));
    assert Truth(t, w) == Truth(s, w);
    if m != n { assert t.replicas[m] == s.replicas[m]; }
  }

  lemma {:induction false} OpenedTruthsOk(s: System, n: nat, v: nat, base: int)
    requires Inv(s) && Enabled(s, ResetAt(n, v, base)) && v !in s.truths
    ensures TruthsOk(Next(s, ResetAt(n, v, base)))
  {
    var t := Next(s, ResetAt(n, v, base));
    OpenedNew(s, n, v, base);
    forall w | w in t.truths ensures TruthOk(t, w) && Established(t, w) {
      if w != v { OpenedTruths(s, n, v, base, w); }
      KeptEstablished(s, t.truths, n, OnBase(v, base), w);
    }
  }

  lemma {:induction false} OpenedPastOk(s: System, n: nat, v: nat, base: int)
    requires Inv(s) && Enabled(s, ResetAt(n, v, base)) && v !in s.truths
    ensures PastOk(Next(s, ResetAt(n, v, base)))
  {
    var t := Next(s, ResetAt(n, v, base));
    OpenedNew(s, n, v, base);
    forall d | d in t.past ensures d.baseVersion in t.truths && Behind(d, TruthOf(t, d)) {
      if d in s.past { OpenedTruths(s, n, v, base, d.baseVersion); }
    }
  }

  lemma {:induction false} OpenedOwnOk(s: System, n: nat, v: nat, base: int)
    requires Inv(s) && Enabled(s, ResetAt(n, v, base)) && v !in s.truths
    ensures OwnOk(Next(s, ResetAt(n, v, base)))
  {
    var t := Next(s, ResetAt(n, v, base));
    OpenedNew(s, n, v, base);
    forall w, m | w in t.truths && m in Ids(Truth(t, w).slots) ensures OwnSlot(t, w, m) {
      OpenedTruths(s, n, v, base, w);
      assert OwnSlot(s, w, m);
      OpenedOwn(s, n, v, base, w, m);
    }
  }

  lemma {:induction false} OpenedInv(s: System, n: nat, v: nat, base: int)
    requires Inv(s) && Enabled(s, ResetAt(n, v, base)) && v !in s.truths
    ensures Inv(Next(s, ResetAt(n, v, base)))
  {
    assert Next(s, ResetAt(n, v, base)).replicas.Keys == s.replicas.Keys;
    OpenedTruthsOk(s, n, v, base);
    OpenedPastOk(s, n, v, base);
    OpenedOwnOk(s, n, v, base);
  }

  /** The other truths stay, and the truth of the node's base grows. */
  lemma {:induction false} BumpTruths(s: System, n: nat, delta: int, v: nat)
    requires Inv(s) && Enabled(s, BumpAt(n, delta)) && v in Next(s, BumpAt(n, delta)).truths
    ensures var t := Next(s, BumpAt(n, delta));
      v in s.truths && TruthOk(t, v) && Truth(t, v).base == Truth(s, v).base && Le(Truth(s, v).slots, Truth(t, v).slots)
    ensures v == s.replicas[n].baseVersion ==>
      Truth(Next(s, BumpAt(n, delta)), v).slots == Grown(Truth(s, v).slots, n, delta)
    ensures v != s.replicas[n].baseVersion ==> Truth(Next(s, BumpAt(n, delta)), v) == Truth(s, v)
  {
    OwnAmount(s, n);
    var t := Next(s, BumpAt(n, delta));
    assert t.replicas.Keys == s.replicas.Keys && TruthOk(s, v);
    if v == s.replicas[n].baseVersion {
      GrownSize(Truth(s, v).slots, n, delta, s.replicas.Keys);
      BumpGrows(Truth(s, v).slots, n, delta);
    }
  }

  lemma {:induction false} BumpHeld(s: System, n: nat, delta: int)
    requires Inv(s) && Enabled(s, BumpAt(n, delta))
    ensures var t := Next(s, BumpAt(n, delta));
      t.replicas[n].baseVersion in t.truths && Behind(t.replicas[n], TruthOf(t, t.replicas[n]))
  {
    var held := s.replicas[n];
    OwnAmount(s, n);
    BumpTruths(s, n, delta, held.baseVersion);
    GrownSize(held.slots, n, delta, s.replicas.Keys);
    BumpStaysBehind(held.slots, TruthOf(s, held).slots, n, delta);
  }

  lemma {:induction false} BumpPast(s: System, n: nat, delta: int, c: Counter)
    requires Inv(s) && Enabled(s, BumpAt(n, delta)) && c in Next(s, BumpAt(n, delta)).past
    ensures var t := Next(s, BumpAt(n, delta)); c.baseVersion in t.truths && Behind(c, TruthOf(t, c))
  {
    if c in s.past {
      BumpTruths(s, n, delta, c.baseVersion);
      LeTransitive(c.slots, TruthOf(s, c).slots, TruthOf(Next(s, BumpAt(n, delta)), c).slots);
    } else {
      BumpHeld(s, n, delta);
    }
  }

  lemma {:induction false} BumpOwn(s: System, n: nat, delta: int, v: nat, m: nat)
    requires Inv(s) && Enabled(s, BumpAt(n, delta)) && v in Next(s, BumpAt(n, delta)).truths
    requires m in Ids(Truth(Next(s, BumpAt(n, delta)), v).slots)
    ensures OwnSlot(Next(s, BumpAt(n, delta)), v, m)
  {
    var held := s.replicas[n];
    OwnAmount(s, n);
    BumpTruths(s, n, delta, v);
    GrownMeaning(Truth(s, v).slots, n, delta);
    GrownMeaning(held.slots, n, delta);
    if m in Ids(Truth(s, v).slots) { assert OwnSlot(s, v, m); }
  }

  lemma {:induction false} BumpInv(s: System, n: nat, delta: int)
    requires Inv(s) && Enabled(s, BumpAt(n, delta))
    ensures Inv(Next(s, BumpAt(n, delta)))
  {
    var t := Next(s, BumpAt(n, delta));
    assert t.replicas.Keys == s.replicas.Keys;
    forall v | v in t.truths ensures TruthOk(t, v) && Established(t, v) {
      BumpTruths(s, n, delta, v);
      KeptEstablished(s, t.truths, n, t.replicas[n], v);
    }
    forall c | c in t.past ensures c.baseVersion in t.truths && Behind(c, TruthOf(t, c)) { BumpPast(s, n, delta, c); }
    forall v, m | v in t.truths && m in Ids(Truth(t, v).slots) ensures OwnSlot(t, v, m) { BumpOwn(s, n, delta, v, m); }
  }

  lemma {:induction false} StepInv(s: System, step: Step)
    requires Inv(s) && Enabled(s, step)
    ensures Inv(Next(s, step))
  {
    match step
    case BumpAt(n, delta) => BumpInv(s, n, delta);
    case MergeAt(n, state) =>
      MergeKeeps(s, n, state);
      KeptInv(s, n, Merge(s.replicas[n], state));
    case ResetAt(n, v, base) => ResetInv(s, n, v, base);
  }

  /** Every reachable system keeps the invariant: no state ever exceeds what a node truly contributed. */
  lemma {:induction false} RunInv(s: System, steps: seq<Step>)
    requires Inv(s) && Runs(s, steps)
    ensures Inv(After(s, steps))
  {
    if steps != [] {
      RunInv(s, steps[..|steps| - 1]);
      StepInv(After(s, steps[..|steps| - 1]), steps[|steps| - 1]);
    }
  }

  // ----- any number of nodes -----------------------------------------------

  /** A state that is ahead of no node, with however many slots. */
  ghost predicate Under(c: Counter, truth: Counter) {
    && Sorted(c.slots) && c.baseVersion == truth.baseVersion
    && forall n :: LeAmount(Get(c.slots, n), Get(truth.slots, n))
  }

  ghost predicate Capped(s: System) {
    && (forall v :: v in s.truths ==> Sorted(Truth(s, v).slots))
    && (forall n :: n in s.replicas ==> s.replicas[n] in s.past)
    && forall c :: c in s.past ==> c.baseVersion in s.truths && Under(c, TruthOf(s, c))
  }

  lemma {:induction false} UnderGrows(c: Counter, truth: Counter, n: nat, delta: int)
    requires Under(c, truth) && Sorted(truth.slots) && Fits(Get(truth.slots, n), delta)
    ensures Under(c, Bump(truth, n, delta)) && Under(Bump(c, n, delta), Bump(truth, n, delta))
    ensures Sorted(Bump(truth, n, delta).slots)
  {
    GrownMeaning(c.slots, n, delta);
    GrownMeaning(truth.slots, n, delta);
  }

  lemma {:induction false} BumpCapped(s: System, n: nat, delta: int)
    requires Capped(s) && Enabled(s, BumpAt(n, delta))
    ensures Capped(Next(s, BumpAt(n, delta)))
  {
    var t, held := Next(s, BumpAt(n, delta)), s.replicas[n];
    assert held in s.past && Under(held, TruthOf(s, held));
    UnderGrows(held, TruthOf(s, held), n, delta);
    forall c | c in s.past ensures c.baseVersion in t.truths && Under(c, TruthOf(t, c)) {
      if c.baseVersion == held.baseVersion {
        UnderGrows(c, TruthOf(s, held), n, delta);
      } else {
        assert TruthOf(t, c) == TruthOf(s, c);
      }
    }
    forall v | v in t.truths ensures Sorted(Truth(t, v).slots) {
      if v != held.baseVersion { assert Truth(t, v) == Truth(s, v); }
    }
  }

  /** A join holds no more of a node than one of its sides, even where the cap drops slots. */
  lemma {:induction false} JoinUnder(a: Counter, b: Counter, truth: Counter)
    requires Under(a, truth) && Under(b, truth)
    ensures Under(Merge(a, b), truth)
  {
    var r, t := Raised(a.slots, b.slots), Merge(a, b).slots;
    L.RaisedIds(a.slots, b.slots);
    L.TruncateIds(r);
    forall n ensures LeAmount(Get(t, n), Get(truth.slots, n)) {
      L.RaisedGet(a.slots, b.slots, n);
      if n !in Ids(t) { GetMissing(t, n); } else if |r| > MAX_SLOTS { L.GetPrefix(r, MAX_SLOTS, n); }
    }
  }

  lemma {:induction false} MergeCapped(s: System, n: nat, state: Counter)
    requires Capped(s) && Enabled(s, MergeAt(n, state))
    ensures Capped(Next(s, MergeAt(n, state)))
  {
    var t, held := Next(s, MergeAt(n, state)), s.replicas[n];
    assert held in s.past && Under(held, TruthOf(s, held)) && Under(state, TruthOf(s, state));
    if held.baseVersion == state.baseVersion { JoinUnder(held, state, TruthOf(s, held)); }
    forall c | c in t.past ensures c.baseVersion in t.truths && Under(c, TruthOf(t, c)) {
      assert TruthOf(t, c) == TruthOf(s, c);
    }
  }

  lemma {:induction false} ResetCapped(s: System, n: nat, v: nat, base: int)
    requires Capped(s) && Enabled(s, ResetAt(n, v, base)) && (v in s.truths ==> s.truths[v].baseVersion == v)
    ensures Capped(Next(s, ResetAt(n, v, base)))
  {
    var t, c := Next(s, ResetAt(n, v, base)), OnBase(v, base);
    assert Under(c, Truth(t, v));
    forall d | d in s.past ensures d.baseVersion in t.truths && Under(d, TruthOf(t, d)) {
      assert TruthOf(t, d) == TruthOf(s, d);
    }
  }

  lemma {:induction false} VersionMatches(s: System, steps: seq<Step>, v: nat)
    requires Runs(s, steps) && Truth(s, v).baseVersion == v
    ensures Truth(After(s, steps), v).baseVersion == v
  {
    if steps != [] { VersionMatches(s, steps[..|steps| - 1], v); }
  }

  /** In every run, with any number of nodes, no state holds more of a node than the node contributed on its base. */
  lemma {:induction false} NeverExceeds(nodes: set<nat>, version: nat, base: int, steps: seq<Step>)
    requires Runs(Start(nodes, version, base), steps)
    ensures Capped(After(Start(nodes, version, base), steps))
  {
    var s := Start(nodes, version, base);
    if steps != [] {
      var front, last := steps[..|steps| - 1], steps[|steps| - 1];
      NeverExceeds(nodes, version, base, front);
      var t := After(s, front);
      match last
      case BumpAt(n, delta) => BumpCapped(t, n, delta);
      case MergeAt(n, state) => MergeCapped(t, n, state);
      case ResetAt(n, v, b) =>
        VersionMatches(s, front, v);
        ResetCapped(t, n, v, b);
    }
  }

  // ----- conservation ------------------------------------------------------

  lemma {:induction false} GrownSum(slots: seq<Slot>, n: nat, delta: int)
    requires Sorted(slots) && Fits(Get(slots, n), delta)
    ensures Sum(Grown(slots, n, delta)) == Sum(slots) + delta
  {
    var r := Grown(slots, n, delta);
    if slots == [] || n < slots[0].node {
      if slots != [] { AfterFirst(slots); IdsCons(slots); }
      GetMissing(slots, n);
      assert r[1..] == slots;
    } else if slots[0].node == n {
      assert r[1..] == slots[1..];
    } else {
      AfterFirst(slots);
      GrownSum(slots[1..], n, delta);
      assert r[1..] == Grown(slots[1..], n, delta);
    }
  }

  /** One step adds to the truth of a base what it added there. */
  lemma {:induction false} StepTruth(s: System, step: Step, v: nat)
    requires Inv(s) && Enabled(s, step) && v in Next(s, step).truths
    ensures var t := Next(s, step);
      Sum(Truth(t, v).slots) == (if v in s.truths then Sum(Truth(s, v).slots) else 0) + Added(s, step, v)
    ensures v in s.truths ==> Truth(Next(s, step), v).base == Truth(s, v).base
  {
    if step.BumpAt? {
      OwnAmount(s, step.node);
      BumpTruths(s, step.node, step.delta, v);
      if s.replicas[step.node].baseVersion == v { GrownSum(Truth(s, v).slots, step.node, step.delta); }
    } else if step.ResetAt? {
      OwnAmount(s, step.node);
    }
  }

  /** On a base that no replica has, nothing was added. */
  lemma {:induction false} NothingAdded(s: System, steps: seq<Step>, v: nat)
    requires Inv(s) && Runs(s, steps) && v !in After(s, steps).truths
    ensures Total(s, steps, v) == 0
  {
    if steps != [] {
      var front, last := steps[..|steps| - 1], steps[|steps| - 1];
      RunInv(s, front);
      NothingAdded(s, front, v);
      OwnAmount(After(s, front), last.node);
    }
  }

  /** The truth of each base sums up every increment that was made on it. */
  lemma {:induction false} TruthIsTotal(s: System, steps: seq<Step>, v: nat)
    requires Inv(s) && Runs(s, steps) && v in After(s, steps).truths
    requires forall w :: w in s.truths ==> Sum(Truth(s, w).slots) == 0
    ensures Sum(Truth(After(s, steps), v).slots) == Total(s, steps, v)
  {
    if steps != [] {
      var front, last := steps[..|steps| - 1], steps[|steps| - 1];
      var t := After(s, front);
      RunInv(s, front);
      StepTruth(t, last, v);
      if v in t.truths { TruthIsTotal(s, front, v); } else { NothingAdded(s, front, v); }
    }
  }

  /** Merge states one after the other. */
  function MergeAll(states: seq<Counter>): Counter
    requires states != []
  {
    if |states| == 1 then states[0]
    else Merge(MergeAll(states[..|states| - 1]), states[|states| - 1])
  }

  /** A state on the newest of the bases, behind the truth and ahead of every state there. */
  ghost predicate Tops(s: System, states: seq<Counter>, all: Counter) {
    && all.baseVersion in s.truths && Behind(all, TruthOf(s, all))
    && forall c :: c in states ==>
         c.baseVersion <= all.baseVersion && (c.baseVersion == all.baseVersion ==> Le(c.slots, all.slots))
  }

  lemma {:induction false} TopsNext(s: System, front: seq<Counter>, all: Counter, last: Counter)
    requires Inv(s) && Tops(s, front, all) && last in s.past
    ensures Tops(s, front + [last], Merge(all, last))
  {
    assert TruthOk(s, all.baseVersion);
    LeSelf(last.slots);
    if all.baseVersion == last.baseVersion {
      JoinBehind(all, last, TruthOf(s, all));
      forall c | c in front && c.baseVersion == all.baseVersion ensures Le(c.slots, Merge(all, last).slots) {
        LeTransitive(c.slots, all.slots, Merge(all, last).slots);
      }
    }
  }

  lemma {:induction false} MergeAllTops(s: System, states: seq<Counter>)
    requires Inv(s) && states != [] && forall c :: c in states ==> c in s.past
    ensures Tops(s, states, MergeAll(states))
  {
    var front, last := states[..|states| - 1], states[|states| - 1];
    assert last in states && states == front + [last];
    if front == [] {
      LeSelf(last.slots);
    } else {
      assert forall c :: c in front ==> c in states;
      MergeAllTops(s, front);
      TopsNext(s, front, MergeAll(front), last);
    }
  }

  /** States of the past that include every replica. */
  ghost predicate Gathered(t: System, states: seq<Counter>) {
    && states != [] && (forall c :: c in states ==> c in t.past)
    && forall n :: n in t.replicas ==> t.replicas[n] in states
  }

  /** The truth of the newest base. */
  predicate IsNewest(t: System, all: Counter) {
    && all.baseVersion in t.truths && all == t.truths[all.baseVersion]
    && forall v :: v in t.truths ==> v <= all.baseVersion
  }

  lemma {:induction false} TopAmount(s: System, states: seq<Counter>, all: Counter, n: nat)
    requires OwnOk(s) && Tops(s, states, all) && n in Ids(TruthOf(s, all).slots)
    requires forall m :: m in s.replicas ==> s.replicas[m] in states
    ensures n in Ids(all.slots) && Get(all.slots, n) == Get(TruthOf(s, all).slots, n)
  {
    assert OwnSlot(s, all.baseVersion, n);
    var c := s.replicas[n];
    assert c in states && c.baseVersion == all.baseVersion;
    SameAmount(c.slots, all.slots, TruthOf(s, all).slots, n);
  }

  lemma {:induction false} TopIsTruth(s: System, states: seq<Counter>, all: Counter)
    requires OwnOk(s) && Tops(s, states, all) && TruthOk(s, all.baseVersion)
    requires forall n :: n in s.replicas ==> s.replicas[n] in states
    ensures all == TruthOf(s, all)
  {
    var truth := TruthOf(s, all).slots;
    forall n | n in Ids(truth) ensures n in Ids(all.slots) && Get(all.slots, n) == Get(truth, n) {
      TopAmount(s, states, all, n);
    }
    assert Ids(all.slots) == Ids(truth);
    SlotsUnique(all.slots, truth);
  }

  lemma {:induction false} TopIsNewest(s: System, states: seq<Counter>, all: Counter, v: nat)
    requires Tops(s, states, all) && Gathered(s, states) && Established(s, v)
    ensures v <= all.baseVersion
  {
    assert states[0] in states;
  }

  /** Past states that include every replica merge, in any order, to exactly the truth of the newest base. */
  lemma {:induction false} MergedIsTruth(s: System, states: seq<Counter>)
    requires Inv(s) && Gathered(s, states)
    ensures IsNewest(s, MergeAll(states))
  {
    var all := MergeAll(states);
    MergeAllTops(s, states);
    forall v | v in s.truths ensures v <= all.baseVersion { TopIsNewest(s, states, all, v); }
    TopIsTruth(s, states, all);
  }

  datatype NewBase = NewBase(version: nat, base: int)

  /** The base of the highest version that was ever set. */
  function Newest(version: nat, base: int, steps: seq<Step>): NewBase {
    if steps == [] then NewBase(version, base)
    else
      var front, last := Newest(version, base, steps[..|steps| - 1]), steps[|steps| - 1];
      if last.ResetAt? && last.version > front.version then NewBase(last.version, last.base) else front
  }

  /** The truths are those of bases that were set, up to the newest. */
  lemma {:induction false} NewestIs(nodes: set<nat>, version: nat, base: int, steps: seq<Step>)
    requires Runs(Start(nodes, version, base), steps)
    ensures var t, b := After(Start(nodes, version, base), steps), Newest(version, base, steps);
      b.version in t.truths && t.truths[b.version].base == b.base && forall v :: v in t.truths ==> v <= b.version
  {
    if steps != [] {
      var front, last := steps[..|steps| - 1], steps[|steps| - 1];
      NewestIs(nodes, version, base, front);
      NeverExceeds(nodes, version, base, front);
      var s := After(Start(nodes, version, base), front);
      if last.BumpAt? { assert s.replicas[last.node] in s.past; }
    }
  }

  lemma {:induction false} RunsInv(nodes: set<nat>, version: nat, base: int, steps: seq<Step>)
    requires |nodes| <= MAX_SLOTS && L.NodeIds(nodes) && Runs(Start(nodes, version, base), steps)
    ensures Inv(After(Start(nodes, version, base), steps))
  {
    StartInv(nodes, version, base);
    RunInv(Start(nodes, version, base), steps);
  }

  lemma {:induction false} RunTotal(nodes: set<nat>, version: nat, base: int, steps: seq<Step>, v: nat)
    requires |nodes| <= MAX_SLOTS && L.NodeIds(nodes) && Runs(Start(nodes, version, base), steps)
    requires v in After(Start(nodes, version, base), steps).truths
    ensures Sum(After(Start(nodes, version, base), steps).truths[v].slots) ==
            Total(Start(nodes, version, base), steps, v)
  {
    StartInv(nodes, version, base);
    TruthIsTotal(Start(nodes, version, base), steps, v);
  }

  lemma {:induction false} RunMerged(
      nodes: set<nat>, version: nat, base: int, steps: seq<Step>, states: seq<Counter>)
    requires |nodes| <= MAX_SLOTS && L.NodeIds(nodes) && Runs(Start(nodes, version, base), steps)
    requires Gathered(After(Start(nodes, version, base), steps), states)
    ensures PastOk(After(Start(nodes, version, base), steps))
    ensures IsNewest(After(Start(nodes, version, base), steps), MergeAll(states))
  {
    RunsInv(nodes, version, base, steps);
    MergedIsTruth(After(Start(nodes, version, base), steps), states);
  }

  /** No state of the past has more on the base of `all` than it has. */
  ghost predicate Covers(s: System, all: Counter) {
    forall c, n :: c in s.past && c.baseVersion == all.baseVersion ==> LeAmount(Get(c.slots, n), Get(all.slots, n))
  }

  lemma {:induction false} PastBehind(s: System, all: Counter, c: Counter, n: nat)
    requires PastOk(s) && IsNewest(s, all) && c in s.past && c.baseVersion == all.baseVersion
    ensures LeAmount(Get(c.slots, n), Get(all.slots, n))
  {
    LeGet(c.slots, all.slots, n);
  }

  /**
   * In every run of at most 255 nodes, merging states that include all replicas
   * yields the newest base that any node set plus every increment made on that
   * base, and no state ever had more on it; increments on older bases are gone.
   */
  lemma {:induction false} Conserved(nodes: set<nat>, version: nat, base: int, steps: seq<Step>, states: seq<Counter>)
    requires |nodes| <= MAX_SLOTS && L.NodeIds(nodes) && Runs(Start(nodes, version, base), steps)
    requires Gathered(After(Start(nodes, version, base), steps), states)
    ensures var s, newest := Start(nodes, version, base), Newest(version, base, steps);
      && MergeAll(states).baseVersion == newest.version
      && Value(MergeAll(states)) == Fitting(newest.base + Total(s, steps, newest.version))
    ensures Covers(After(Start(nodes, version, base), steps), MergeAll(states))
  {
    var t := After(Start(nodes, version, base), steps);
    RunMerged(nodes, version, base, steps, states);
    forall c, n | c in t.past && c.baseVersion == MergeAll(states).baseVersion
      ensures LeAmount(Get(c.slots, n), Get(MergeAll(states).slots, n))
    {
      PastBehind(t, MergeAll(states), c, n);
    }
    NewestIs(nodes, version, base, steps);
    RunTotal(nodes, version, base, steps, Newest(version, base, steps).version);
  }
}
