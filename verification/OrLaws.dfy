/** Laws of the element merge, and what every delivery history of element writes leaves behind. */
module OrLaws {
  import opened OrElements
  import S = Sorting
  import T = TopSets

  /** What was written: the value added under each dot, and the expiry stamped by each version. */
  datatype World = World(val: nat -> Value, ttlOf: nat -> nat)

  /** A record as nodes write and store it. */
  ghost predicate Ok(r: Record, w: World) {
    && Normal(r.state, w.val) && r.ttl == w.ttlOf(r.version) && r.rtype <= COUNTER_FIELD
    && (r.rtype == COUNTER_FIELD ==> OnePerOrigin(LiveSet(r.state)))
  }

  /** Not a counter field. */
  predicate Plain(r: Record) {
    r.rtype != COUNTER_FIELD
  }

  function Live(r: Record): set<nat> { LiveSet(r.state) }

  function Covered(r: Record): set<nat> { CoveredSet(r.state) }

  // ----- writes ------------------------------------------------------------

  /** Every write is a stored record; it covers what it observed and adds its dot unless it covers it. */
  lemma {:induction false} WrittenOk(rtype: nat, version: nat, st: ElementState, w: World)
    requires Consistent(st.live, w.val) && |CoveredSet(st)| <= MAX_TOMB_DOTS && |LiveSet(st)| <= MAX_LIVE_DOTS
    requires rtype <= COUNTER_FIELD && (rtype == COUNTER_FIELD ==> OnePerOrigin(LiveSet(st)))
    ensures var r := Written(rtype, version, w.ttlOf(version), st);
      Ok(r, w) && Covered(r) == CoveredSet(st) && Live(r) == LiveSet(st) - CoveredSet(st)
  {
    NormalizeMeaning(st, w.val);
    T.TopAll(CoveredSet(st), MAX_TOMB_DOTS);
    S.SubsetSize(LiveSet(st) - CoveredSet(st), LiveSet(st));
    T.TopAll(LiveSet(st) - CoveredSet(st), MAX_LIVE_DOTS);
  }

  lemma {:induction false} AddOk(rtype: nat, version: nat, dot: nat, w: World)
    requires rtype <= COUNTER_FIELD
    ensures Ok(Add(rtype, version, dot, w.val(dot), w.ttlOf(version)), w)
    ensures var r := Add(rtype, version, dot, w.val(dot), w.ttlOf(version)); Live(r) == {dot} && Covered(r) == {}
  {
    var st := ElementState([Entry(dot, w.val(dot))], []);
    assert Dots(st.live) == [dot];
    assert LiveSet(st) == {dot} && CoveredSet(st) == {};
    WrittenOk(rtype, version, st, w);
  }

  lemma {:induction false} SetOk(rtype: nat, version: nat, observed: seq<nat>, w: World)
    requires rtype <= COUNTER_FIELD && w.ttlOf(version) == 0 && |T.Elements(observed)| <= MAX_TOMB_DOTS &&
      version !in observed
    ensures var r := Set(rtype, version, w.val(version), observed);
      Ok(r, w) && Live(r) == {version} && Covered(r) == T.Elements(observed)
  {
    var st := ElementState([Entry(version, w.val(version))], observed);
    assert Dots(st.live) == [version];
    assert LiveSet(st) == {version};
    WrittenOk(rtype, version, st, w);
  }

  lemma {:induction false} RemoveOk(rtype: nat, version: nat, observed: seq<nat>, w: World)
    requires rtype <= COUNTER_FIELD && w.ttlOf(version) == 0 && |T.Elements(observed)| <= MAX_TOMB_DOTS
    ensures var r := Remove(rtype, version, observed); Ok(r, w) && Live(r) == {} && Covered(r) == T.Elements(observed)
  {
    var st := ElementState([], observed);
    assert LiveSet(st) == {};
    WrittenOk(rtype, version, st, w);
  }

  // ----- one merge ---------------------------------------------------------

  function Union(s: ElementState, t: ElementState): ElementState {
    ElementState(s.live + t.live, s.covered + t.covered)
  }

  lemma {:induction false} UnionSets(s: ElementState, t: ElementState)
    ensures LiveSet(Union(s, t)) == LiveSet(s) + LiveSet(t) && CoveredSet(Union(s, t)) == CoveredSet(s) + CoveredSet(t)
  {
    assert Dots(s.live + t.live) == Dots(s.live) + Dots(t.live);
    ElementsOfSum(Dots(s.live), Dots(t.live));
    ElementsOfSum(s.covered, t.covered);
  }

  lemma {:induction false} ElementsOfSum(s: seq<nat>, t: seq<nat>)
    ensures T.Elements(s + t) == T.Elements(s) + T.Elements(t)
  {}

  lemma {:induction false} NormalizedUnion(rtype: nat, s: ElementState, t: ElementState, val: nat -> Value)
    requires Consistent(s.live, val) && Consistent(t.live, val)
    ensures var r := Normalize(Collapsed(rtype, Normalize(Union(s, t))));
      && Normal(r, val)
      && CoveredSet(r) == T.Top(CoveredSet(s) + CoveredSet(t), MAX_TOMB_DOTS)
      && LiveSet(r) == Kept(rtype, LiveSet(s) + LiveSet(t) - CoveredSet(r))
  {
    var joined := Normalize(Union(s, t));
    UnionSets(s, t);
    NormalizeMeaning(Union(s, t), val);
    CollapsedNormal(rtype, joined, val);
    NormalizeNormal(Collapsed(rtype, joined), val);
  }

  lemma {:induction false} KeptOne(s: set<nat>)
    ensures OnePerOrigin(Kept(COUNTER_FIELD, s))
  {
    NewestOne(T.Top(s, MAX_LIVE_DOTS));
  }

  /**
   * A merge joins covered dots, then keeps the highest live dots that none
   * covers; of those a counter field keeps the highest of each node.
   */
  lemma {:induction false} MergeMeaning(a: Record, b: Record, w: World)
    requires Ok(a, w) && Ok(b, w)
    ensures var r := Merge(a, b);
      && Ok(r, w)
      && r.rtype == Max(a.rtype, b.rtype) && r.version == Max(a.version, b.version)
      && Covered(r) == T.Top(Covered(a) + Covered(b), MAX_TOMB_DOTS)
      && Live(r) == Kept(r.rtype, Live(a) + Live(b) - Covered(r))
  {
    var rtype := Max(a.rtype, b.rtype);
    NormalizedUnion(rtype, a.state, b.state, w.val);
    assert Merge(a, b) == Joined(a, b);
    KeptOne(Live(a) + Live(b) - Covered(Merge(a, b)));
  }

  /** Stored records with the same version, type and dots are the same record. */
  lemma {:induction false} Same(r: Record, s: Record, w: World)
    requires Ok(r, w) && Ok(s, w) && r.rtype == s.rtype && r.version == s.version
    requires Live(r) == Live(s) && Covered(r) == Covered(s)
    ensures r == s
  {
    NormalUnique(r.state, s.state, w.val);
  }

  lemma {:induction false} SameIff(l: Record, r: Record, w: World)
    requires Ok(l, w) && Ok(r, w) && l.rtype == r.rtype && l.version == r.version && Covered(l) == Covered(r)
    ensures l == r <==> Live(l) == Live(r)
  {
    if Live(l) == Live(r) { Same(l, r, w); }
  }

  lemma {:induction false} Commutes(a: Record, b: Record, w: World)
    requires Ok(a, w) && Ok(b, w)
    ensures Merge(a, b) == Merge(b, a)
  {
    MergeMeaning(a, b, w);
    MergeMeaning(b, a, w);
    assert Covered(a) + Covered(b) == Covered(b) + Covered(a);
    assert Live(a) + Live(b) == Live(b) + Live(a);
    Same(Merge(a, b), Merge(b, a), w);
  }

  lemma {:induction false} Idempotent(a: Record, w: World)
    requires Ok(a, w)
    ensures Merge(a, a) == a
  {
    MergeMeaning(a, a, w);
    assert Covered(a) + Covered(a) == Covered(a);
    T.TopAll(Covered(a), MAX_TOMB_DOTS);
    assert Live(a) + Live(a) - Covered(a) == Live(a);
    T.TopAll(Live(a), MAX_LIVE_DOTS);
    if a.rtype == COUNTER_FIELD { NewestSelf(Live(a)); }
    Same(Merge(a, a), a, w);
  }

  /** Merging a record again into a merge that already has it changes nothing. */
  lemma {:induction false} Absorbs(a: Record, b: Record, w: World)
    requires Ok(a, w) && Ok(b, w) && Plain(a) && Plain(b)
    ensures Merge(a, Merge(a, b)) == Merge(a, b)
  {
    var m := Merge(a, b);
    MergeMeaning(a, b, w);
    MergeMeaning(a, m, w);
    assert Covered(a) + Covered(m) == Covered(m) + Covered(a);
    T.TopUnion(Covered(a) + Covered(b), Covered(a), MAX_TOMB_DOTS);
    assert Covered(a) + Covered(b) + Covered(a) == Covered(a) + Covered(b);
    var all := Live(a) + Live(b) - Covered(m);
    T.TopBetween(all, Live(a) + Live(m) - Covered(m), MAX_LIVE_DOTS);
    Same(Merge(a, m), m, w);
  }

  // ----- three records -----------------------------------------------------

  /** Added dots that neither of two records covers. */
  function Both(a: Record, b: Record): set<nat> {
    Live(a) + Live(b) - (Covered(a) + Covered(b))
  }

  /** Added dots that none of three records covers. */
  function Surviving(a: Record, b: Record, c: Record): set<nat> {
    Live(a) + Live(b) + Live(c) - (Covered(a) + Covered(b) + Covered(c))
  }

  lemma {:induction false} Rotated(a: Record, b: Record, c: Record)
    ensures Surviving(b, c, a) == Surviving(a, b, c)
    ensures Covered(b) + Covered(c) + Covered(a) == Covered(a) + Covered(b) + Covered(c)
  {
    assert Live(b) + Live(c) + Live(a) == Live(a) + Live(b) + Live(c);
  }

  lemma {:induction false} OtherGrouping(a: Record, b: Record, c: Record, w: World)
    requires Ok(a, w) && Ok(b, w) && Ok(c, w)
    ensures Merge(a, Merge(b, c)) == Merge(Merge(b, c), a)
  {
    MergeMeaning(b, c, w);
    Commutes(a, Merge(b, c), w);
  }

  // ----- histories ---------------------------------------------------------

  /** How a stored record came about: writes, merged in any order and grouping, any of them repeatedly. */
  datatype History = Write(record: Record) | Delivered(left: History, right: History)

  function Stored(h: History): Record {
    match h
    case Write(r) => r
    case Delivered(l, r) => Merge(Stored(l), Stored(r))
  }

  function Writes(h: History): set<Record> {
    match h
    case Write(r) => {r}
    case Delivered(l, r) => Writes(l) + Writes(r)
  }

  ghost predicate AllOk(h: History, w: World) {
    forall r :: r in Writes(h) ==> Ok(r, w)
  }

  predicate AllPlain(h: History) {
    forall r :: r in Writes(h) ==> Plain(r)
  }

  /** The dots some write of the history added, or covered. */
  function Adds(h: History): set<nat> {
    set r, d | r in Writes(h) && d in Live(r) :: d
  }

  function Removes(h: History): set<nat> {
    set r, d | r in Writes(h) && d in Covered(r) :: d
  }

  function MaxVersion(h: History): nat {
    match h
    case Write(r) => r.version
    case Delivered(l, r) => Max(MaxVersion(l), MaxVersion(r))
  }

  function MaxType(h: History): nat {
    match h
    case Write(r) => r.rtype
    case Delivered(l, r) => Max(MaxType(l), MaxType(r))
  }

  /** No merge of the history has more surviving dots than a record can hold. */
  predicate Fits(h: History) {
    h.Delivered? ==> Fits(h.left) && Fits(h.right) && |Adds(h) - Removes(h)| <= MAX_LIVE_DOTS
  }

  lemma {:induction false} StoredOk(h: History, w: World)
    requires AllOk(h, w)
    ensures Ok(Stored(h), w) && Stored(h).version == MaxVersion(h) && Stored(h).rtype == MaxType(h)
  {
    if h.Delivered? {
      StoredOk(h.left, w);
      StoredOk(h.right, w);
      MergeMeaning(Stored(h.left), Stored(h.right), w);
    }
  }

  /** Covered dots are never forgotten while they number at most 255. */
  lemma {:induction false} CoversAll(h: History, w: World)
    requires AllOk(h, w) && |Removes(h)| <= MAX_TOMB_DOTS
    ensures Covered(Stored(h)) == Removes(h)
  {
    if h.Delivered? {
      var l, r := h.left, h.right;
      DeliveredSets(h);
      CoversAll(l, w);
      CoversAll(r, w);
      StoredOk(l, w);
      StoredOk(r, w);
      MergeMeaning(Stored(l), Stored(r), w);
      T.TopAll(Removes(h), MAX_TOMB_DOTS);
    }
  }

  /** No covered dot is ever live, whatever the live cap drops. */
  lemma {:induction false} NoResurrection(h: History, w: World)
    requires AllOk(h, w) && |Removes(h)| <= MAX_TOMB_DOTS
    ensures Live(Stored(h)) <= Adds(h) - Removes(h)
  {
    LiveWereAdded(h, w);
    CoversAll(h, w);
    StoredOk(h, w);
  }

  lemma {:induction false} LiveWereAdded(h: History, w: World)
    requires AllOk(h, w)
    ensures Live(Stored(h)) <= Adds(h)
  {
    if h.Delivered? {
      var l, r := h.left, h.right;
      LiveWereAdded(l, w);
      LiveWereAdded(r, w);
      StoredOk(l, w);
      StoredOk(r, w);
      MergeMeaning(Stored(l), Stored(r), w);
      assert Adds(h) == Adds(l) + Adds(r);
    }
  }

  lemma {:induction false} DeliveredSets(h: History)
    requires h.Delivered?
    ensures Adds(h) == Adds(h.left) + Adds(h.right) && Removes(h) == Removes(h.left) + Removes(h.right)
    ensures |Removes(h.left)| <= |Removes(h)| && |Removes(h.right)| <= |Removes(h)|
  {
    S.SubsetSize(Removes(h.left), Removes(h));
    S.SubsetSize(Removes(h.right), Removes(h));
  }

  lemma {:induction false} AllOkParts(h: History, w: World)
    requires AllOk(h, w) && h.Delivered?
    ensures AllOk(h.left, w) && AllOk(h.right, w)
  {}

  /** Within the caps a record holds exactly the added dots that no write covers. */
  lemma {:induction false} AddsMinusRemoves(h: History, w: World)
    requires AllOk(h, w) && AllPlain(h) && |Removes(h)| <= MAX_TOMB_DOTS && Fits(h)
    ensures Live(Stored(h)) == Adds(h) - Removes(h)
  {
    if h.Delivered? {
      var l, r := h.left, h.right;
      DeliveredSets(h);
      AllOkParts(h, w);
      AddsMinusRemoves(l, w);
      AddsMinusRemoves(r, w);
      CoversAll(h, w);
      UnionMinus(Adds(l), Adds(r), Removes(l), Removes(r));
      KeepsAll(l, r, w, Adds(h) - Removes(h));
    } else {
      WriteSets(h, w);
    }
  }

  lemma {:induction false} WriteSets(h: History, w: World)
    requires h.Write? && AllOk(h, w)
    ensures Live(h.record) == Adds(h) - Removes(h)
  {
    assert h.record in Writes(h);
    assert Adds(h) == Live(h.record) && Removes(h) == Covered(h.record);
  }

  lemma {:induction false} UnionMinus(x: set<nat>, y: set<nat>, p: set<nat>, q: set<nat>)
    ensures (x - p) + (y - q) - (p + q) == x + y - (p + q)
  {}

  lemma {:induction false} PlainStored(h: History)
    requires AllPlain(h)
    ensures MaxType(h) != COUNTER_FIELD
  {
    var newest, highest := MaximaOfWrites(h);
  }

  lemma {:induction false} KeepsAll(l: History, r: History, w: World, all: set<nat>)
    requires AllOk(l, w) && AllOk(r, w) && AllPlain(l) && AllPlain(r) && |all| <= MAX_LIVE_DOTS
    requires Live(Stored(l)) + Live(Stored(r)) - Covered(Merge(Stored(l), Stored(r))) == all
    ensures Live(Merge(Stored(l), Stored(r))) == all
  {
    StoredOk(l, w);
    StoredOk(r, w);
    MergeMeaning(Stored(l), Stored(r), w);
    PlainStored(l);
    PlainStored(r);
    T.TopAll(all, MAX_LIVE_DOTS);
  }

  /** The version and type of a history are those of its highest writes. */
  lemma {:induction false} MaximaOfWrites(h: History) returns (newest: Record, highest: Record)
    ensures newest in Writes(h) && newest.version == MaxVersion(h)
    ensures highest in Writes(h) && highest.rtype == MaxType(h)
    ensures forall r :: r in Writes(h) ==> r.version <= MaxVersion(h) && r.rtype <= MaxType(h)
  {
    match h
    case Write(r) =>
      newest, highest := r, r;
    case Delivered(l, r) =>
      var n, t := MaximaOfWrites(l);
      var n', t' := MaximaOfWrites(r);
      newest := if n.version >= n'.version then n else n';
      highest := if t.rtype >= t'.rtype then t else t';
  }

  lemma {:induction false} SameMaxima(h: History, k: History)
    requires Writes(h) == Writes(k)
    ensures MaxVersion(h) == MaxVersion(k) && MaxType(h) == MaxType(k)
  {
    var n, t := MaximaOfWrites(h);
    var n', t' := MaximaOfWrites(k);
  }

  /** Two histories of the same writes store the same record, however they were ordered, grouped or repeated. */
  lemma {:induction false} SameWritesConverge(h: History, k: History, w: World)
    requires AllOk(h, w) && AllPlain(h) && Writes(h) == Writes(k) && |Removes(h)| <= MAX_TOMB_DOTS && Fits(h) && Fits(k)
    ensures Stored(h) == Stored(k)
  {
    assert Adds(h) == Adds(k) && Removes(h) == Removes(k);
    AddsMinusRemoves(h, w);
    AddsMinusRemoves(k, w);
    CoversAll(h, w);
    CoversAll(k, w);
    StoredOk(h, w);
    StoredOk(k, w);
    SameMaxima(h, k);
    Same(Stored(h), Stored(k), w);
  }
}
