/** Formatting runs under text edits: projection through edits and merging of proposals. */
module Runs {
  import opened Options
  import opened Model
  import S = Sorting
  import T = TextDiff

  // ----- appending in canonical form ---------------------------------------

  /** Append a run, extending the last one when it touches and agrees. */
  function AddRun(out: seq<Run>, start: nat, end: nat, attrs: Attrs): seq<Run> {
    if end <= start then out
    else if out != [] && out[|out| - 1].end == start && out[|out| - 1].attrs == attrs
    then out[..|out| - 1] + [Run(out[|out| - 1].start, end, attrs)]
    else out + [Run(start, end, attrs)]
  }

  predicate EndsBy(rs: seq<Run>, p: nat) {
    forall i :: 0 <= i < |rs| ==> rs[i].end <= p
  }

  lemma {:induction false} AppendCanonical(out: seq<Run>, r: Run)
    requires Canonical(out) && EndsBy(out, r.start) && r.start < r.end && r.attrs != map[]
    requires forall i :: 0 <= i < |out| && out[i].end == r.start ==> out[i].attrs != r.attrs
    ensures Canonical(out + [r]) && EndsBy(out + [r], r.end)
  {}

  /** Only the last of canonical runs can end where all of them have ended. */
  lemma {:induction false} OnlyLastTouches(out: seq<Run>, start: nat)
    requires Canonical(out) && EndsBy(out, start)
    ensures forall i :: 0 <= i < |out| - 1 ==> out[i].end < start
  {
    forall i | 0 <= i < |out| - 1 ensures out[i].end < start {
      assert out[i].end <= out[|out| - 1].start < out[|out| - 1].end;
    }
  }

  lemma {:induction false} FrontOf(runs: seq<Run>)
    requires Canonical(runs) && runs != []
    ensures var n := |runs| - 1;
      && Canonical(runs[..n]) && EndsBy(runs[..n], runs[n].start) && runs[n].start < runs[n].end &&
        runs[n].attrs != map[]
      && forall i :: 0 <= i < n && runs[..n][i].end == runs[n].start ==> runs[..n][i].attrs != runs[n].attrs
  {}

  lemma {:induction false} AddRunCanonical(out: seq<Run>, start: nat, end: nat, attrs: Attrs)
    requires Canonical(out) && EndsBy(out, start) && start < end && attrs != map[]
    ensures Canonical(AddRun(out, start, end, attrs)) && EndsBy(AddRun(out, start, end, attrs), end)
  {
    OnlyLastTouches(out, start);
    if out != [] && out[|out| - 1].end == start && out[|out| - 1].attrs == attrs {
      FrontOf(out);
      AppendCanonical(out[..|out| - 1], Run(out[|out| - 1].start, end, attrs));
    } else {
      AppendCanonical(out, Run(start, end, attrs));
    }
  }

  /** Appending a run changes the attributes exactly on that run. */
  lemma {:induction false} AddRunMeaning(out: seq<Run>, start: nat, end: nat, attrs: Attrs, p: nat)
    requires Canonical(out) && EndsBy(out, start) && start < end && attrs != map[]
    ensures AttrsAt(AddRun(out, start, end, attrs), p) == if start <= p < end then attrs else AttrsAt(out, p)
  {
    var out' := AddRun(out, start, end, attrs);
    AddRunCanonical(out, start, end, attrs);
    var last := |out'| - 1;
    if out'[last].start <= p < end {
      AttrsAtCovered(out', p, last);
      if p < start { AttrsAtCovered(out, p, last); }
    } else if i :| 0 <= i < last && out'[i].start <= p < out'[i].end {
      AttrsAtCovered(out', p, i);
      AttrsAtCovered(out, p, i);
    } else {
      AttrsAtUncovered(out', p);
      forall i | 0 <= i < |out| ensures !(out[i].start <= p < out[i].end) {
        if i < last { assert out'[i] == out[i]; }
      }
      AttrsAtUncovered(out, p);
    }
  }

  // ----- projection through edits ------------------------------------------

  /** Displacement of boundary p; None when an edit rewrites text on both sides of it. */
  function Displacement(p: nat, start: bool, edits: seq<T.Edit>): Option<int> {
    if edits == [] then Some(0)
    else
      var e := edits[0];
      if p < e.at then Some(0)
      else if e.del == 0 && p == e.at then
        match Displacement(p, start, edits[1..])
        case None => None
        case Some(d) => Some(d + if start then |e.ins| else 0)
      else if p == e.at then Some(0)
      else if p < e.at + e.del then None
      else
        match Displacement(p, start, edits[1..])
        case None => None
        case Some(d) => Some(d + |e.ins| - e.del)
  }

  /** Where a run boundary of the old text lies in the edited text. */
  function ProjectPoint(p: nat, start: bool, edits: seq<T.Edit>): Option<nat> {
    match Displacement(p, start, edits)
    case None => None
    case Some(d) => if p + d >= 0 then Some(p + d) else None
  }

  function ProjectRuns(runs: seq<Run>, edits: seq<T.Edit>): Option<seq<Run>> {
    if runs == [] then Some([])
    else
      var r := runs[|runs| - 1];
      match ProjectRuns(runs[..|runs| - 1], edits)
      case None => None
      case Some(out) =>
        match (ProjectPoint(r.start, true, edits), ProjectPoint(r.end, false, edits))
        case (Some(start), Some(end)) => Some(AddRun(out, start, end, r.attrs))
        case _ => None
  }

  /** Without edits, canonical runs stay as they are. */
  lemma {:induction false} ProjectIdentity(runs: seq<Run>)
    requires Canonical(runs)
    ensures ProjectRuns(runs, []) == Some(runs)
  {
    if runs != [] {
      var n := |runs| - 1;
      FrontOf(runs);
      ProjectIdentity(runs[..n]);
      AddLast(runs);
      ProjectLast(runs);
    }
  }

  lemma {:induction false} ProjectLast(runs: seq<Run>)
    requires runs != []
    requires var n := |runs| - 1;
      ProjectRuns(runs[..n], []) == Some(runs[..n]) &&
        AddRun(runs[..n], runs[n].start, runs[n].end, runs[n].attrs) == runs
    ensures ProjectRuns(runs, []) == Some(runs)
  {
    var last := runs[|runs| - 1];
    assert ProjectPoint(last.start, true, []) == Some(last.start);
    assert ProjectPoint(last.end, false, []) == Some(last.end);
  }

  lemma {:induction false} AddLast(runs: seq<Run>)
    requires Canonical(runs) && runs != []
    ensures var n := |runs| - 1; AddRun(runs[..n], runs[n].start, runs[n].end, runs[n].attrs) == runs
  {
    var n := |runs| - 1;
    FrontOf(runs);
    AddSeparate(runs[..n], runs[n]);
    assert runs == runs[..n] + [runs[n]];
  }

  lemma {:induction false} AddSeparate(out: seq<Run>, r: Run)
    requires r.start < r.end && (out != [] && out[|out| - 1].end == r.start ==> out[|out| - 1].attrs != r.attrs)
    ensures AddRun(out, r.start, r.end, r.attrs) == out + [r]
  {}

  predicate AllFrom(edits: seq<T.Edit>, c: nat) {
    forall i :: 0 <= i < |edits| ==> c <= edits[i].at
  }

  lemma {:induction false} TailValid(edits: seq<T.Edit>, len: nat)
    requires T.Valid(edits, len) && edits != []
    ensures T.Valid(edits[1..], len) && AllFrom(edits[1..], edits[0].at + edits[0].del) &&
      AllFrom(edits[1..], edits[0].at + 1)
  {
    assert forall i :: 0 <= i < |edits[1..]| ==> edits[1..][i] == edits[i + 1];
  }

  /** Edits behind c never pull a boundary behind c to before c. */
  lemma {:induction false} DisplacementFloor(p: nat, start: bool, edits: seq<T.Edit>, len: nat, c: nat)
    requires T.Valid(edits, len) && AllFrom(edits, c) && c <= p
    ensures var d := Displacement(p, start, edits); d.Some? ==> c <= p + d.value
  {
    if edits != [] && edits[0].at <= p {
      var e := edits[0];
      TailValid(edits, len);
      if e.at + e.del <= p {
        DisplacementFloor(p, start, edits[1..], len, e.at + e.del);
      }
    }
  }

  /** Projection keeps the order of an end and a later start. */
  lemma {:induction false} ProjectMonotone(p: nat, q: nat, edits: seq<T.Edit>, len: nat)
    requires T.Valid(edits, len) && p <= q
    ensures var d, d' := Displacement(p, false, edits), Displacement(q, true, edits);
            d.Some? && d'.Some? ==> p + d.value <= q + d'.value
  {
    if edits != [] && edits[0].at <= q {
      var e := edits[0];
      TailValid(edits, len);
      if e.at + e.del <= q {
        DisplacementFloor(q, true, edits[1..], len, e.at + e.del);
        if e.at + e.del <= p {
          ProjectMonotone(p, q, edits[1..], len);
        }
      }
    }
  }

  /** Projected runs end before the projection of any later start. */
  lemma {:induction false} ProjectEndsBy(runs: seq<Run>, edits: seq<T.Edit>, len: nat, q: nat)
    requires T.Valid(edits, len) && EndsBy(runs, q)
    requires ProjectRuns(runs, edits).Some? && ProjectPoint(q, true, edits).Some?
    ensures EndsBy(ProjectRuns(runs, edits).value, ProjectPoint(q, true, edits).value)
  {
    if runs != [] {
      var n := |runs| - 1;
      ProjectEndsBy(runs[..n], edits, len, q);
      ProjectMonotone(runs[n].end, q, edits, len);
    }
  }

  /** Projecting canonical runs through applicable edits gives canonical runs. */
  lemma {:induction false} ProjectCanonical(runs: seq<Run>, edits: seq<T.Edit>, len: nat)
    requires T.Valid(edits, len) && Canonical(runs)
    requires ProjectRuns(runs, edits).Some?
    ensures Canonical(ProjectRuns(runs, edits).value)
  {
    if runs != [] {
      var n := |runs| - 1;
      var r := runs[n];
      FrontOf(runs);
      ProjectCanonical(runs[..n], edits, len);
      ProjectEndsBy(runs[..n], edits, len, r.start);
      var out := ProjectRuns(runs[..n], edits).value;
      var start, end := ProjectPoint(r.start, true, edits).value, ProjectPoint(r.end, false, edits).value;
      if start < end { AddRunCanonical(out, start, end, r.attrs); }
    }
  }

  // ----- attribute deltas --------------------------------------------------

  /** The keys on which `alt` differs from `base`, with the new value (None for removed). */
  function Changes(base: Attrs, alt: Attrs): Patch {
    map k | k in base.Keys + alt.Keys && Get(base, k) != Get(alt, k) :: Get(alt, k)
  }

  /** Changes of all alternatives together; None when two of them disagree about a key. */
  function Delta(base: Attrs, alts: seq<Attrs>): Option<Patch> {
    if alts == [] then Some(map[])
    else
      match Delta(base, alts[..|alts| - 1])
      case None => None
      case Some(d) =>
        var c := Changes(base, alts[|alts| - 1]);
        if exists k :: k in d && k in c && d[k] != c[k] then None else Some(d + c)
  }

  type Patch = map<string, Option<Value>>

  /** Two patches set one key differently. */
  predicate Clash(c: Patch, d: Patch) {
    exists k :: k in c && k in d && c[k] != d[k]
  }

  /** Both alternatives change one key of the base, to different values. */
  predicate Disagree(base: Attrs, a: Attrs, b: Attrs) {
    exists k :: k in base.Keys + a.Keys + b.Keys && DisagreeOn(base, a, b, k)
  }

  predicate DisagreeOn(base: Attrs, a: Attrs, b: Attrs, k: string) {
    Get(a, k) != Get(base, k) && Get(b, k) != Get(base, k) && Get(a, k) != Get(b, k)
  }

  lemma {:induction false} DisagreeIsClash(base: Attrs, a: Attrs, b: Attrs)
    ensures Disagree(base, a, b) <==> Clash(Changes(base, a), Changes(base, b))
  {
    var c, d := Changes(base, a), Changes(base, b);
    if k :| k in base.Keys + a.Keys + b.Keys && DisagreeOn(base, a, b, k) { assert k in c && k in d && c[k] != d[k]; }
    if k :| k in c && k in d && c[k] != d[k] {
      assert k in base.Keys + a.Keys + b.Keys && DisagreeOn(base, a, b, k);
    }
  }

  /** The patches of all alternatives. */
  function Patches(base: Attrs, alts: seq<Attrs>): seq<Patch> {
    seq(|alts|, i requires 0 <= i < |alts| => Changes(base, alts[i]))
  }

  predicate ClashAmong(cs: seq<Patch>) {
    exists i, j :: 0 <= i < j < |cs| && Clash(cs[i], cs[j])
  }

  /** One patch that does what patches that agree do: no key is missing, and each comes from one of them. */
  ghost predicate Gathers(cs: seq<Patch>, d: Patch) {
    && (forall i, k :: 0 <= i < |cs| && k in cs[i] ==> k in d && d[k] == cs[i][k])
    && (forall k :: k in d ==> exists i :: 0 <= i < |cs| && k in cs[i])
  }

  lemma {:induction false} GatherNext(cs: seq<Patch>, c: Patch, d: Patch)
    requires Gathers(cs, d) && !Clash(d, c)
    ensures Gathers(cs + [c], d + c)
  {
    var all := cs + [c];
    forall k | k in d + c ensures exists i :: 0 <= i < |all| && k in all[i] {
      if k in d {
        var i :| 0 <= i < |cs| && k in cs[i];
        assert k in all[i];
      } else {
        assert k in all[|cs|];
      }
    }
  }

  lemma {:induction false} LastClashes(cs: seq<Patch>, c: Patch, d: Patch)
    requires Gathers(cs, d)
    ensures Clash(d, c) <==> exists i :: 0 <= i < |cs| && Clash(cs[i], c)
  {
    if k :| k in d && k in c && d[k] != c[k] {
      var i :| 0 <= i < |cs| && k in cs[i];
      assert Clash(cs[i], c);
    }
    if i :| 0 <= i < |cs| && Clash(cs[i], c) {
      var k :| k in cs[i] && k in c && cs[i][k] != c[k];
      assert k in d;
    }
  }

  lemma {:induction false} ClashSnoc(cs: seq<Patch>, c: Patch)
    ensures ClashAmong(cs + [c]) <==> ClashAmong(cs) || exists i :: 0 <= i < |cs| && Clash(cs[i], c)
  {
    var all := cs + [c];
    if i, j :| 0 <= i < j < |cs| && Clash(cs[i], cs[j]) { assert Clash(all[i], all[j]); }
    if i :| 0 <= i < |cs| && Clash(cs[i], c) { assert Clash(all[i], all[|cs|]); }
    if i, j :| 0 <= i < j < |all| && Clash(all[i], all[j]) {
      assert Clash(cs[i], all[j]);
      if j < |cs| { assert Clash(cs[i], cs[j]); }
    }
  }

  /** A gathered patch, or nothing, after one more patch. */
  ghost predicate Gathered(cs: seq<Patch>, d: Option<Patch>) {
    (d.None? <==> ClashAmong(cs)) && (d.Some? ==> Gathers(cs, d.value))
  }

  lemma {:induction false} GatheredNext(cs: seq<Patch>, c: Patch, d: Option<Patch>)
    requires Gathered(cs, d)
    ensures Gathered(cs + [c], if d.None? || Clash(d.value, c) then None else Some(d.value + c))
  {
    ClashSnoc(cs, c);
    if d.Some? {
      LastClashes(cs, c, d.value);
      if !Clash(d.value, c) { GatherNext(cs, c, d.value); }
    }
  }

  lemma {:induction false} DeltaSnoc(base: Attrs, front: seq<Attrs>, last: Attrs)
    ensures var d, c := Delta(base, front), Changes(base, last);
      Delta(base, front + [last]) == if d.None? || Clash(d.value, c) then None else Some(d.value + c)
    ensures Patches(base, front + [last]) == Patches(base, front) + [Changes(base, last)]
  {
    assert (front + [last])[..|front|] == front;
  }

  /** Alternatives combine exactly when no two of their patches clash. */
  lemma {:induction false} DeltaIff(base: Attrs, alts: seq<Attrs>)
    ensures Gathered(Patches(base, alts), Delta(base, alts))
  {
    if alts != [] {
      var front, last := alts[..|alts| - 1], alts[|alts| - 1];
      assert alts == front + [last];
      DeltaIff(base, front);
      DeltaSnoc(base, front, last);
      GatheredNext(Patches(base, front), Changes(base, last), Delta(base, front));
    }
  }

  function ApplyDelta(base: Attrs, d: Patch): Attrs {
    map k | k in base.Keys + d.Keys && (k in d ==> d[k].Some?) :: if k in d then d[k].value else base[k]
  }

  lemma {:induction false} ApplyChanges(base: Attrs, alt: Attrs)
    ensures ApplyDelta(base, Changes(base, alt)) == alt
  {
    var r := ApplyDelta(base, Changes(base, alt));
    forall k ensures Get(r, k) == Get(alt, k) {}
    forall k | k in r || k in alt ensures k in r && k in alt && r[k] == alt[k] {
      assert Get(r, k) == Get(alt, k);
    }
  }

  /** Attributes at one point after all proposals; None on a conflict. */
  function Combined(base: Attrs, alts: seq<Attrs>): Option<Attrs> {
    match Delta(base, alts)
    case None => None
    case Some(d) => Some(ApplyDelta(base, d))
  }

  lemma {:induction false} CombinedOne(base: Attrs, alt: Attrs)
    ensures Combined(base, [alt]) == Some(alt)
    ensures Combined(base, []) == Some(base)
  {
    ApplyChanges(base, alt);
    assert [alt][..0] == [];
    assert Delta(base, [alt][..0]) == Some(map[]);
    assert map[] + Changes(base, alt) == Changes(base, alt);
    assert ApplyDelta(base, map[]) == base;
  }

  // ----- merging proposals -------------------------------------------------

  function Boundaries(rs: seq<Run>): set<nat> {
    (set r | r in rs :: r.start) + (set r | r in rs :: r.end)
  }

  function AllBoundaries(base: seq<Run>, proposals: seq<seq<Run>>): set<nat> {
    Boundaries(base) + (set rs, b | rs in proposals && b in Boundaries(rs) :: b)
  }

  function AltsAt(proposals: seq<seq<Run>>, p: nat): seq<Attrs> {
    seq(|proposals|, i requires 0 <= i < |proposals| => AttrsAt(proposals[i], p))
  }

  function CombinedAt(base: seq<Run>, proposals: seq<seq<Run>>, p: nat): Option<Attrs> {
    Combined(AttrsAt(base, p), AltsAt(proposals, p))
  }

  function Extend(out: seq<Run>, lo: nat, hi: nat, attrs: Attrs): seq<Run> {
    if attrs == map[] then out else AddRun(out, lo, hi, attrs)
  }

  lemma {:induction false} ExtendMeaning(out: seq<Run>, lo: nat, hi: nat, attrs: Attrs, p: nat)
    requires Canonical(out) && EndsBy(out, lo) && lo < hi
    ensures var out' := Extend(out, lo, hi, attrs);
            && Canonical(out') && EndsBy(out', hi)
            && AttrsAt(out', p) == if lo <= p < hi then attrs else AttrsAt(out, p)
  {
    if attrs == map[] {
      if lo <= p { AttrsAtUncovered(out, p); }
    } else {
      AddRunCanonical(out, lo, hi, attrs);
      AddRunMeaning(out, lo, hi, attrs, p);
    }
  }

  /** Runs over the first n elementary intervals, `f` giving the attributes at a point. */
  function MergeUpTo(points: seq<nat>, f: nat -> Option<Attrs>, n: nat): Option<seq<Run>>
    requires n == 0 || n < |points|
  {
    if n == 0 then Some([])
    else
      match MergeUpTo(points, f, n - 1)
      case None => None
      case Some(out) =>
        match f(points[n - 1])
        case None => None
        case Some(attrs) => Some(Extend(out, points[n - 1], points[n], attrs))
  }

  function MergePoints(points: seq<nat>, f: nat -> Option<Attrs>): Option<seq<Run>> {
    MergeUpTo(points, f, if points == [] then 0 else |points| - 1)
  }

  function MergeProposals(base: seq<Run>, proposals: seq<seq<Run>>): Option<seq<Run>> {
    MergePoints(S.SetToSeq(AllBoundaries(base, proposals)), (p: nat) => CombinedAt(base, proposals, p))
  }

  /** The interval loop, stopping at the first conflict. */
  method MergeRunProposals(base: seq<Run>, proposals: seq<seq<Run>>) returns (r: Option<seq<Run>>)
    ensures r == MergeProposals(base, proposals)
  {
    r := MergeIntervals(S.SetToSeq(AllBoundaries(base, proposals)), (p: nat) => CombinedAt(base, proposals, p));
  }

  method MergeIntervals(points: seq<nat>, f: nat -> Option<Attrs>) returns (r: Option<seq<Run>>)
    ensures r == MergePoints(points, f)
  {
    var out := [];
    var n := 0;
    while n + 1 < |points|
      invariant n == 0 || n < |points|
      invariant MergeUpTo(points, f, n) == Some(out)
    {
      var attrs := f(points[n]);
      if attrs.None? {
        MergeStops(points, f, n + 1, |points| - 1);
        return None;
      }
      out := Extend(out, points[n], points[n + 1], attrs.value);
      n := n + 1;
    }
    return Some(out);
  }

  lemma {:induction false} MergeStops(points: seq<nat>, f: nat -> Option<Attrs>, n: nat, k: nat)
    requires n <= k < |points| && MergeUpTo(points, f, n).None?
    ensures MergeUpTo(points, f, k).None?
  {
    if n < k { MergeStops(points, f, n, k - 1); }
  }

  /** f changes only at the given points and is empty outside of them. */
  ghost predicate StepFunction(points: seq<nat>, f: nat -> Option<Attrs>) {
    && S.Ascending(points)
    && (forall p: nat :: (points == [] || p < points[0] || points[|points| - 1] <= p) ==> f(p) == Some(map[]))
    && (forall i, j, p: nat :: 0 <= i < j < |points| && j == i + 1 && points[i] <= p < points[j] ==>
      f(p) == f(points[i]))
  }

  /** Point-wise meaning of the first n intervals. */
  lemma {:induction false} MergeUpToMeaning(points: seq<nat>, f: nat -> Option<Attrs>, n: nat, p: nat)
    requires StepFunction(points, f) && n < |points|
    requires MergeUpTo(points, f, n).Some?
    ensures var out := MergeUpTo(points, f, n).value;
            && Canonical(out) && EndsBy(out, points[n])
            && (p < points[n] ==> f(p) == Some(AttrsAt(out, p)))
            && (points[n] <= p ==> AttrsAt(out, p) == map[])
  {
    if n > 0 {
      MergeUpToMeaning(points, f, n - 1, p);
      var lo, hi := points[n - 1], points[n];
      ExtendMeaning(MergeUpTo(points, f, n - 1).value, lo, hi, f(lo).value, p);
      assert lo <= p < hi ==> f(p) == f(points[n - 1]);
    }
  }

  lemma {:induction false} MergePointsMeaning(points: seq<nat>, f: nat -> Option<Attrs>, p: nat)
    requires StepFunction(points, f) && MergePoints(points, f).Some?
    ensures Canonical(MergePoints(points, f).value)
    ensures f(p) == Some(AttrsAt(MergePoints(points, f).value, p))
  {
    if points != [] {
      MergeUpToMeaning(points, f, |points| - 1, p);
    }
  }

  lemma {:induction false} MergeUpToFails(points: seq<nat>, f: nat -> Option<Attrs>, n: nat)
    requires n < |points| && MergeUpTo(points, f, n).None?
    ensures exists i :: 0 <= i < |points| && f(points[i]).None?
  {
    if MergeUpTo(points, f, n - 1).None? {
      MergeUpToFails(points, f, n - 1);
    } else {
      assert f(points[n - 1]).None?;
    }
  }

  /** No boundary strictly between two points: attributes are constant there. */
  lemma {:induction false} ConstantBetween(rs: seq<Run>, lo: nat, p: nat)
    requires Ordered(rs) && lo <= p
    requires forall b :: b in Boundaries(rs) ==> !(lo < b <= p)
    ensures AttrsAt(rs, p) == AttrsAt(rs, lo)
  {
    if rs != [] {
      assert rs[0] in rs && rs[0].start in Boundaries(rs) && rs[0].end in Boundaries(rs);
      if rs[0].end <= lo {
        assert Boundaries(rs[1..]) <= Boundaries(rs) by { assert forall r :: r in rs[1..] ==> r in rs; }
        ConstantBetween(rs[1..], lo, p);
      }
    }
  }

  ghost predicate AllOrdered(base: seq<Run>, proposals: seq<seq<Run>>) {
    Ordered(base) && forall rs :: rs in proposals ==> Ordered(rs)
  }

  lemma {:induction false} BoundariesAmong(base: seq<Run>, proposals: seq<seq<Run>>)
    ensures Boundaries(base) <= AllBoundaries(base, proposals)
    ensures forall i :: 0 <= i < |proposals| ==> Boundaries(proposals[i]) <= AllBoundaries(base, proposals)
  {
    forall i, b | 0 <= i < |proposals| && b in Boundaries(proposals[i]) ensures b in AllBoundaries(base, proposals) {
      assert proposals[i] in proposals;
    }
  }

  lemma {:induction false} CombinedConstant(base: seq<Run>, proposals: seq<seq<Run>>, lo: nat, p: nat)
    requires AllOrdered(base, proposals) && lo <= p
    requires forall b :: b in AllBoundaries(base, proposals) ==> !(lo < b <= p)
    ensures CombinedAt(base, proposals, p) == CombinedAt(base, proposals, lo)
  {
    BoundariesAmong(base, proposals);
    ConstantBetween(base, lo, p);
    forall i | 0 <= i < |proposals| ensures AttrsAt(proposals[i], p) == AttrsAt(proposals[i], lo) {
      ConstantBetween(proposals[i], lo, p);
    }
    assert AltsAt(proposals, p) == AltsAt(proposals, lo);
  }

  lemma {:induction false} Uncovered(rs: seq<Run>, p: nat)
    requires Ordered(rs)
    requires (forall b :: b in Boundaries(rs) ==> p < b) || (forall b :: b in Boundaries(rs) ==> b <= p)
    ensures AttrsAt(rs, p) == map[]
  {
    forall i | 0 <= i < |rs| ensures !(rs[i].start <= p < rs[i].end) {
      assert rs[i] in rs && rs[i].start in Boundaries(rs) && rs[i].end in Boundaries(rs);
    }
    AttrsAtUncovered(rs, p);
  }

  lemma {:induction false} CombinedEmpty(n: nat)
    ensures Delta(map[], seq(n, _ => map[])) == Some(map[])
  {
    if n > 0 {
      CombinedEmpty(n - 1);
      var alts: seq<Attrs> := seq(n, _ => map[]);
      assert alts[..n - 1] == seq(n - 1, _ => map[]);
    }
  }

  /** Outside all boundaries nothing is formatted. */
  lemma {:induction false} CombinedOutside(base: seq<Run>, proposals: seq<seq<Run>>, p: nat)
    requires AllOrdered(base, proposals)
    requires (forall b :: b in AllBoundaries(base, proposals) ==> p < b) ||
      (forall b :: b in AllBoundaries(base, proposals) ==> b <= p)
    ensures CombinedAt(base, proposals, p) == Some(map[])
  {
    BoundariesAmong(base, proposals);
    Uncovered(base, p);
    forall i | 0 <= i < |proposals| ensures AttrsAt(proposals[i], p) == map[] {
      Uncovered(proposals[i], p);
    }
    assert AltsAt(proposals, p) == seq(|proposals|, _ => map[]);
    CombinedEmpty(|proposals|);
  }

  lemma {:induction false} BelowAll(points: seq<nat>, p: nat, b: nat)
    requires S.Ascending(points) && b in points
    ensures p < points[0] ==> p < b
    ensures points[|points| - 1] <= p ==> b <= p
  {
    var i :| 0 <= i < |points| && points[i] == b;
  }

  lemma {:induction false} NoneBetween(points: seq<nat>, n: nat, b: nat)
    requires S.Ascending(points) && b in points && 0 < n < |points|
    ensures b <= points[n - 1] || points[n] <= b
  {
    var i :| 0 <= i < |points| && points[i] == b;
    assert i <= n - 1 || n <= i;
  }

  ghost predicate NoneWithin(bs: set<nat>, lo: nat, p: nat) {
    forall b :: b in bs ==> !(lo < b <= p)
  }

  ghost predicate Outside(bs: set<nat>, p: nat) {
    (forall b :: b in bs ==> p < b) || (forall b :: b in bs ==> b <= p)
  }

  lemma {:induction false} StepsFromBoundaries(bs: set<nat>, points: seq<nat>, f: nat -> Option<Attrs>)
    requires S.Ascending(points) && forall x :: x in points <==> x in bs
    requires forall p: nat :: Outside(bs, p) ==> f(p) == Some(map[])
    requires forall lo: nat, p: nat :: lo <= p && NoneWithin(bs, lo, p) ==> f(p) == f(lo)
    ensures StepFunction(points, f)
  {
    forall p: nat | points == [] || p < points[0] || points[|points| - 1] <= p ensures f(p) == Some(map[]) {
      if points == [] {
        assert bs == {};
      } else {
        forall b | b in bs ensures (p < points[0] ==> p < b) && (points[|points| - 1] <= p ==> b <= p) {
          BelowAll(points, p, b);
        }
      }
      assert Outside(bs, p);
    }
    forall i, j, p: nat | 0 <= i < j < |points| && j == i + 1 && points[i] <= p < points[j]
      ensures f(p) == f(points[i])
    {
      forall b | b in bs ensures !(points[i] < b <= p) { NoneBetween(points, j, b); }
      assert NoneWithin(bs, points[i], p);
    }
  }

  /** Combined attributes change only at run boundaries. */
  lemma {:induction false} CombinedSteps(base: seq<Run>, proposals: seq<seq<Run>>)
    requires AllOrdered(base, proposals)
    ensures StepFunction(S.SetToSeq(AllBoundaries(base, proposals)), (p: nat) => CombinedAt(base, proposals, p))
  {
    var bs := AllBoundaries(base, proposals);
    var f := (p: nat) => CombinedAt(base, proposals, p);
    forall p: nat | Outside(bs, p) ensures f(p) == Some(map[]) { CombinedOutside(base, proposals, p); }
    forall lo: nat, p: nat | lo <= p && NoneWithin(bs, lo, p) ensures f(p) == f(lo) {
      CombinedConstant(base, proposals, lo, p);
    }
    StepsFromBoundaries(bs, S.SetToSeq(bs), f);
  }

  /** What merging means: the result is canonical and gives every code point the base
      attributes with all proposed changes applied. */
  lemma {:induction false} MergeMeaning(base: seq<Run>, proposals: seq<seq<Run>>, p: nat)
    requires AllOrdered(base, proposals)
    requires MergeProposals(base, proposals).Some?
    ensures Canonical(MergeProposals(base, proposals).value)
    ensures CombinedAt(base, proposals, p) == Some(AttrsAt(MergeProposals(base, proposals).value, p))
  {
    CombinedSteps(base, proposals);
    MergePointsMeaning(S.SetToSeq(AllBoundaries(base, proposals)), (q: nat) => CombinedAt(base, proposals, q), p);
  }

  /** Merging fails exactly when two proposals disagree about some code point. */
  lemma {:induction false} MergeFailsIff(base: seq<Run>, proposals: seq<seq<Run>>)
    requires AllOrdered(base, proposals)
    ensures MergeProposals(base, proposals).None? <==> exists p :: CombinedAt(base, proposals, p).None?
  {
    if MergeProposals(base, proposals).None? {
      var points := S.SetToSeq(AllBoundaries(base, proposals));
      var f := (p: nat) => CombinedAt(base, proposals, p);
      MergeUpToFails(points, f, |points| - 1);
      var i :| 0 <= i < |points| && f(points[i]).None?;
      assert f(points[i]) == CombinedAt(base, proposals, points[i]);
    } else {
      forall p: nat ensures CombinedAt(base, proposals, p).Some? {
        MergeMeaning(base, proposals, p);
      }
    }
  }

  /** Two proposals change one attribute of one code point to different values. */
  ghost predicate ConflictAt(base: seq<Run>, proposals: seq<seq<Run>>, p: nat) {
    exists i, j :: 0 <= i < j < |proposals| &&
      Disagree(AttrsAt(base, p), AttrsAt(proposals[i], p), AttrsAt(proposals[j], p))
  }

  lemma {:induction false} CombinedFailsIff(base: seq<Run>, proposals: seq<seq<Run>>, p: nat)
    ensures CombinedAt(base, proposals, p).None? <==> ConflictAt(base, proposals, p)
  {
    var here, alts := AttrsAt(base, p), AltsAt(proposals, p);
    var cs := Patches(here, alts);
    DeltaIff(here, alts);
    forall i, j | 0 <= i < j < |alts|
      ensures Clash(cs[i], cs[j]) <==> Disagree(here, AttrsAt(proposals[i], p), AttrsAt(proposals[j], p))
    {
      DisagreeIsClash(here, alts[i], alts[j]);
    }
  }

  /** Merging fails exactly when two proposals change one attribute of one code point differently. */
  lemma {:induction false} MergeConflictsIff(base: seq<Run>, proposals: seq<seq<Run>>)
    requires AllOrdered(base, proposals)
    ensures MergeProposals(base, proposals).None? <==> exists p :: ConflictAt(base, proposals, p)
  {
    MergeFailsIff(base, proposals);
    forall p: nat ensures CombinedAt(base, proposals, p).None? <==> ConflictAt(base, proposals, p) {
      CombinedFailsIff(base, proposals, p);
    }
  }

  /** A failing merge has a conflict at a boundary of some run. */
  lemma {:induction false} MergeFailsAt(base: seq<Run>, proposals: seq<seq<Run>>) returns (p: nat)
    requires MergeProposals(base, proposals).None?
    ensures p in AllBoundaries(base, proposals) && ConflictAt(base, proposals, p)
  {
    var points := S.SetToSeq(AllBoundaries(base, proposals));
    var f := (q: nat) => CombinedAt(base, proposals, q);
    MergeUpToFails(points, f, |points| - 1);
    var i :| 0 <= i < |points| && f(points[i]).None?;
    p := points[i];
    assert p in points && f(p) == CombinedAt(base, proposals, p);
    CombinedFailsIff(base, proposals, p);
  }

  /** If the proposals agree on `runs` everywhere, merging yields exactly `runs`. */
  lemma {:induction false} MergeYields(base: seq<Run>, proposals: seq<seq<Run>>, runs: seq<Run>)
    requires AllOrdered(base, proposals) && Canonical(runs)
    requires forall p: nat :: CombinedAt(base, proposals, p) == Some(AttrsAt(runs, p))
    ensures MergeProposals(base, proposals) == Some(runs)
  {
    MergeFailsIff(base, proposals);
    var out := MergeProposals(base, proposals).value;
    forall p: nat ensures AttrsAt(out, p) == AttrsAt(runs, p) { MergeMeaning(base, proposals, p); }
    MergeMeaning(base, proposals, 0);
    CanonicalUnique(out, runs);
  }

  /** A single proposal is taken as it is; without proposals the base stays. */
  lemma {:induction false} MergeOne(base: seq<Run>, runs: seq<Run>)
    requires Ordered(base) && Canonical(runs)
    ensures MergeProposals(base, [runs]) == Some(runs)
    ensures MergeProposals(runs, []) == Some(runs)
  {
    forall p: nat
      ensures CombinedAt(base, [runs], p) == Some(AttrsAt(runs, p)) && CombinedAt(runs, [], p) == Some(AttrsAt(runs, p))
    {
      CombinedOne(AttrsAt(base, p), AttrsAt(runs, p));
      CombinedOne(AttrsAt(runs, p), AttrsAt(runs, p));
      assert AltsAt([runs], p) == [AttrsAt(runs, p)] && AltsAt([], p) == [];
    }
    MergeYields(base, [runs], runs);
    MergeYields(runs, [], runs);
  }
}
