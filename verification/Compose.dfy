/** Applying the accepted payload changes of one node to its shell. */
module Compose {
  import opened Options
  import opened Model
  import opened Trees
  import opened Graphs
  import R = Runs
  import S = Sorting
  import T = TextDiff

  datatype Error = InvalidGraph | InvalidText | Conflict

  datatype Result<+V> = Ok(value: V) | Err(error: Error) {
    predicate IsFailure() { Err? }
    function PropagateFailure<U>(): Result<U> requires Err? { Err(error) }
    function Extract(): V requires Ok? { value }
  }

  // ----- ordering edits ----------------------------------------------------

  predicate LexLe(s: string, t: string) {
    s == "" || (t != "" && (s[0] < t[0] || (s[0] == t[0] && LexLe(s[1..], t[1..]))))
  }

  /** Edits by position, deletion length and inserted text. */
  predicate EditLe(a: T.Edit, b: T.Edit) {
    a.at < b.at || (a.at == b.at && (a.del < b.del || (a.del == b.del && LexLe(a.ins, b.ins))))
  }

  lemma {:induction false} LexTotal(s: string, t: string)
    ensures LexLe(s, t) || LexLe(t, s)
  {
    if s != "" && t != "" && s[0] == t[0] { LexTotal(s[1..], t[1..]); }
  }

  lemma {:induction false} LexTransitive(s: string, t: string, u: string)
    requires LexLe(s, t) && LexLe(t, u)
    ensures LexLe(s, u)
  {
    if s != "" && s[0] == t[0] == u[0] { LexTransitive(s[1..], t[1..], u[1..]); }
  }

  lemma {:induction false} LexAntisymmetric(s: string, t: string)
    requires LexLe(s, t) && LexLe(t, s)
    ensures s == t
  {
    if s != "" && t != "" {
      LexAntisymmetric(s[1..], t[1..]);
      assert s == [s[0]] + s[1..] && t == [t[0]] + t[1..];
    }
  }

  lemma {:induction false} EditOrder()
    ensures S.TotalOrder(EditLe)
  {
    forall x, y ensures EditLe(x, y) || EditLe(y, x) { LexTotal(x.ins, y.ins); }
    forall x, y, z | EditLe(x, y) && EditLe(y, z) ensures EditLe(x, z) {
      if x.at == y.at == z.at && x.del == y.del == z.del { LexTransitive(x.ins, y.ins, z.ins); }
    }
    forall x, y | EditLe(x, y) && EditLe(y, x) ensures x == y { LexAntisymmetric(x.ins, y.ins); }
  }

  /** Drop elements equal to their predecessor. */
  function Dedup(s: seq<T.Edit>): seq<T.Edit> {
    if |s| <= 1 then s
    else if s[0] == s[1] then Dedup(s[1..])
    else [s[0]] + Dedup(s[1..])
  }

  function SortedEdits(s: seq<T.Edit>): seq<T.Edit> {
    Dedup(S.Sort(s, EditLe))
  }

  lemma {:induction false} DedupIdentity(s: seq<T.Edit>)
    requires S.Distinct(s)
    ensures Dedup(s) == s
  {
    if |s| > 1 {
      DedupIdentity(s[1..]);
      assert s == [s[0]] + s[1..];
    }
  }

  /** Edits that apply are already sorted and distinct. */
  lemma {:induction false} ValidSorted(s: seq<T.Edit>, len: nat)
    requires T.Valid(s, len)
    ensures SortedEdits(s) == s
  {
    EditOrder();
    S.SortIdentity(s, EditLe);
    DedupIdentity(s);
  }

  // ----- payload validation ------------------------------------------------

  predicate PayloadOk(op: Op, base: Shell) {
    match op
    case Insert(_, _, _, shell) =>
      ScalarAttrs(shell.attrs) && (IsLeaf(shell.kind) <==> shell.text.Some?) &&
      (shell.text.Some? ==> RunsOk(shell.text.value.f, |shell.text.value.x|))
    case Modify(_, _, before, now) => IsLeaf(base.kind) && RunsOk(before.f, |before.x|) && RunsOk(now.f, |now.x|)
    case Format(_, f, g) => base.text.Some? && RunsOk(f, |base.text.value.x|) && RunsOk(g, |base.text.value.x|)
    case SetAttrs(_, f, g) => ScalarAttrs(f) && ScalarAttrs(g)
    case _ => true
  }

  // ----- gathering ---------------------------------------------------------

  /** A formatting proposal: target runs, the edits they were written against, and whether
      they say more than the edits themselves would do to the base runs. */
  datatype Source = Source(runs: seq<Run>, own: seq<T.Edit>, changed: bool)

  datatype Gathered = Gathered(edits: seq<T.Edit>, sources: seq<Source>, attrs: map<string, Option<Value>>)

  function GatherOne(w: Shell, g: Gathered, op: Op): Result<Gathered> {
    match op
    case Modify(_, es, before, now) =>
      if w.text != Some(before) || T.Apply(before.x, es) != T.Ok(now.x) then Err(InvalidText)
      else
        var changed := R.ProjectRuns(before.f, es) != Some(now.f);
        Ok(g.(edits := g.edits + es, sources := g.sources + [Source(now.f, es, changed)]))
    case Format(_, f, f') =>
      if w.text.None? || w.text.value.f != f then Err(InvalidText)
      else Ok(g.(sources := g.sources + [Source(f', [], true)]))
    case SetAttrs(_, a, a') =>
      if w.attrs != a then Err(InvalidGraph)
      else
        var c := R.Changes(a, a');
        if exists k :: k in g.attrs && k in c && g.attrs[k] != c[k] then Err(Conflict)
        else Ok(g.(attrs := g.attrs + c))
    case _ => Ok(g)
  }

  const NOTHING := Gathered([], [], map[])

  function Gather(w: Shell, ops: seq<Op>): Result<Gathered> {
    if ops == [] then Ok(NOTHING)
    else
      var g :- Gather(w, ops[..|ops| - 1]);
      GatherOne(w, g, ops[|ops| - 1])
  }

  // ----- formatting proposals ----------------------------------------------

  /** The edits of other changes, in the coordinates of the text after `own`. */
  function External(edits: seq<T.Edit>, own: seq<T.Edit>): Result<seq<T.Edit>> {
    if edits == [] then Ok([])
    else
      var rest :- External(edits[..|edits| - 1], own);
      var e := edits[|edits| - 1];
      if e in own then Ok(rest)
      else
        match (R.ProjectPoint(e.at, true, own), R.ProjectPoint(e.at + e.del, false, own))
        case (Some(at), Some(end)) => Ok(rest + [T.Edit(at, if end >= at then end - at else 0, e.ins)])
        case _ => Err(InvalidText)
  }

  /** The proposal of one source, in the coordinates of the edited text. */
  function Proposal(edits: seq<T.Edit>, s: Source): Result<seq<Run>> {
    var ext :- External(edits, s.own);
    match R.ProjectRuns(s.runs, ext)
    case None => Err(InvalidText)
    case Some(p) => Ok(p)
  }

  function Proposals(edits: seq<T.Edit>, sources: seq<Source>): Result<seq<seq<Run>>> {
    if sources == [] then Ok([])
    else
      var rest :- Proposals(edits, sources[..|sources| - 1]);
      var s := sources[|sources| - 1];
      if !s.changed then Ok(rest)
      else
        var p :- Proposal(edits, s);
        Ok(rest + [p])
  }

  function Formatted(base: Text, edits: seq<T.Edit>, sources: seq<Source>): Result<seq<Run>> {
    var proposals :- Proposals(edits, sources);
    var baseline := match R.ProjectRuns(base.f, edits) case Some(f) => f case None => [];
    match R.MergeProposals(baseline, proposals)
    case Some(f) => Ok(f)
    case None => Err(Conflict)
  }

  function ComposeText(base: Option<Text>, edits: seq<T.Edit>, sources: seq<Source>): Result<Option<Text>> {
    if edits == [] && sources == [] then Ok(base)
    else if base.None? then Err(InvalidText)
    else
      match T.Apply(base.value.x, edits)
      case Err(_) => Err(InvalidText)
      case Ok(x) =>
        if sources == [] then Ok(Some(Text(x, base.value.f)))
        else
          var f :- Formatted(base.value, edits, sources);
          Ok(Some(Text(x, f)))
  }

  /** The composed shell. */
  function Composed(w: Shell, ops: seq<Op>): Result<Shell> {
    if exists op :: op in ops && !PayloadOk(op, w) then Err(InvalidGraph)
    else
      var g :- Gather(w, ops);
      var text :- ComposeText(w.text, SortedEdits(g.edits), g.sources);
      Ok(w.(text := text, attrs := R.ApplyDelta(w.attrs, g.attrs)))
  }

  // ----- composing a shell change by change ------------------------------------------------

  lemma {:induction false} GatherStops(w: Shell, ops: seq<Op>, i: nat)
    requires i <= |ops| && Gather(w, ops[..i]).Err?
    ensures Gather(w, ops) == Gather(w, ops[..i])
    decreases |ops| - i
  {
    if i == |ops| {
      assert ops[..i] == ops;
    } else {
      assert ops[..i + 1][..i] == ops[..i];
      GatherStops(w, ops, i + 1);
    }
  }

  method GatherAll(w: Shell, ops: seq<Op>) returns (r: Result<Gathered>)
    ensures r == Gather(w, ops)
  {
    var g := NOTHING;
    for i := 0 to |ops|
      invariant Gather(w, ops[..i]) == Ok(g)
    {
      assert ops[..i + 1][..i] == ops[..i];
      var step := GatherOne(w, g, ops[i]);
      if step.Err? {
        GatherStops(w, ops, i + 1);
        return step;
      }
      g := step.value;
    }
    assert ops[..|ops|] == ops;
    return Ok(g);
  }

  lemma {:induction false} ProposalsStop(edits: seq<T.Edit>, sources: seq<Source>, i: nat)
    requires i <= |sources| && Proposals(edits, sources[..i]).Err?
    ensures Proposals(edits, sources) == Proposals(edits, sources[..i])
    decreases |sources| - i
  {
    if i == |sources| {
      assert sources[..i] == sources;
    } else {
      assert sources[..i + 1][..i] == sources[..i];
      ProposalsStop(edits, sources, i + 1);
    }
  }

  method ProposeAll(edits: seq<T.Edit>, sources: seq<Source>) returns (r: Result<seq<seq<Run>>>)
    ensures r == Proposals(edits, sources)
  {
    var proposals: seq<seq<Run>> := [];
    for i := 0 to |sources|
      invariant Proposals(edits, sources[..i]) == Ok(proposals)
    {
      assert sources[..i + 1][..i] == sources[..i];
      if sources[i].changed {
        var p := Proposal(edits, sources[i]);
        if p.Err? {
          ProposalsStop(edits, sources, i + 1);
          return Err(p.error);
        }
        proposals := proposals + [p.value];
      }
    }
    assert sources[..|sources|] == sources;
    return Ok(proposals);
  }

  /** The formatting of the edited text: all proposals merged over the projected base. */
  method FormatText(base: Text, edits: seq<T.Edit>, sources: seq<Source>) returns (r: Result<seq<Run>>)
    ensures r == Formatted(base, edits, sources)
  {
    var proposals :- ProposeAll(edits, sources);
    var baseline := match R.ProjectRuns(base.f, edits) case Some(f) => f case None => [];
    var merged := R.MergeRunProposals(baseline, proposals);
    r := if merged.None? then Err(Conflict) else Ok(merged.value);
  }

  method TextOf(base: Option<Text>, edits: seq<T.Edit>, sources: seq<Source>) returns (r: Result<Option<Text>>)
    ensures r == ComposeText(base, edits, sources)
  {
    if edits == [] && sources == [] {
      return Ok(base);
    }
    if base.None? {
      return Err(InvalidText);
    }
    var x := T.ApplyEdits(base.value.x, edits);
    if x.Err? {
      return Err(InvalidText);
    }
    if sources == [] {
      return Ok(Some(Text(x.text, base.value.f)));
    }
    var f :- FormatText(base.value, edits, sources);
    return Ok(Some(Text(x.text, f)));
  }

  /** Compose the payload changes of one node. */
  method ComposeShell(w: Shell, ops: seq<Op>) returns (r: Result<Shell>)
    ensures r == Composed(w, ops)
  {
    for i := 0 to |ops|
      invariant forall op :: op in ops[..i] ==> PayloadOk(op, w)
    {
      if !PayloadOk(ops[i], w) {
        assert ops[i] in ops;
        return Err(InvalidGraph);
      }
      assert ops[..i + 1] == ops[..i] + [ops[i]];
    }
    assert ops[..|ops|] == ops;
    var g :- GatherAll(w, ops);
    var text :- TextOf(w.text, SortedEdits(g.edits), g.sources);
    return Ok(w.(text := text, attrs := R.ApplyDelta(w.attrs, g.attrs)));
  }

  /** Composition changes neither the kind nor whether there is text. */
  lemma {:induction false} ComposedKeeps(w: Shell, ops: seq<Op>)
    requires Composed(w, ops).Ok?
    ensures Composed(w, ops).value.kind == w.kind && (Composed(w, ops).value.text.Some? <==> w.text.Some?)
  {
  }

  // ----- reaching a target shell -------------------------------------------

  /** The payload operations that lead from shell s to shell t. */
  ghost predicate Leads(ops: seq<Op>, n: NodeRef, s: Shell, t: Shell) {
    && |ops| <= 2
    && (forall op :: op in ops ==> op.node == n && op.IsPayload())
    && (forall op :: op in ops && op.SetAttrs? ==> op.oldAttrs == s.attrs && op.newAttrs == t.attrs)
    && (forall op :: op in ops && op.Modify? ==>
          s.text == Some(op.before) && t.text == Some(op.now) && op.before.x != op.now.x &&
          T.Apply(op.before.x, op.edits) == T.Ok(op.now.x))
    && (forall op :: op in ops && op.Format? ==>
          s.text.Some? && t.text.Some? && s.text.value.x == t.text.value.x &&
            op.oldRuns == s.text.value.f && op.newRuns == t.text.value.f)
    && (forall i, j :: 0 <= i < j < |ops| ==> ops[i].SetAttrs? != ops[j].SetAttrs?)
    && ((exists op :: op in ops && op.SetAttrs?) <==> s.attrs != t.attrs)
    && ((exists op :: op in ops && !op.SetAttrs?) <==> s.text != t.text)
  }

  lemma {:induction false} OneModify(base: Text, now: Text, es: seq<T.Edit>, changed: bool)
    requires T.Apply(base.x, es) == T.Ok(now.x) && es != []
    requires Canonical(base.f) && Canonical(now.f)
    requires changed == (R.ProjectRuns(base.f, es) != Some(now.f))
    ensures ComposeText(Some(base), SortedEdits(es), [Source(now.f, es, changed)]) == Ok(Some(now))
  {
    T.AppliesIffValid(base.x, es);
    ValidSorted(es, |base.x|);
    var source := Source(now.f, es, changed);
    assert [source][..0] == [] && Proposals(es, []) == Ok([]);
    var baseline := match R.ProjectRuns(base.f, es) case Some(f) => f case None => [];
    if R.ProjectRuns(base.f, es).Some? { R.ProjectCanonical(base.f, es, |base.x|); }
    if changed {
      ExternalNone(es, es);
      R.ProjectIdentity(now.f);
      assert [] + [now.f] == [now.f];
      assert Proposals(es, [source]) == Ok([now.f]);
      R.MergeOne(baseline, now.f);
    } else {
      assert Proposals(es, [source]) == Ok([]);
      R.MergeOne(baseline, now.f);
    }
  }

  lemma {:induction false} ExternalNone(es: seq<T.Edit>, own: seq<T.Edit>)
    requires forall e :: e in es ==> e in own
    ensures External(es, own) == Ok([])
  {
    if es != [] { ExternalNone(es[..|es| - 1], own); }
  }

  lemma {:induction false} OneFormat(base: Text, f: seq<Run>)
    requires Canonical(base.f) && Canonical(f)
    ensures ComposeText(Some(base), SortedEdits([]), [Source(f, [], true)]) == Ok(Some(Text(base.x, f)))
  {
    ValidSorted([], 0);
    var source := Source(f, [], true);
    assert T.Apply(base.x, []) == T.Ok(base.x) by { assert base.x[0..] == base.x; }
    R.ProjectIdentity(f);
    R.ProjectIdentity(base.f);
    assert [source][..0] == [] && Proposals([], []) == Ok([]);
    assert [] + [f] == [f];
    assert Proposals([], [source]) == Ok([f]);
    R.MergeOne(base.f, f);
  }

  /** Gathering one text operation from scratch composes to the target text. */
  lemma {:induction false} TextOpReaches(op: Op, n: NodeRef, s: Shell, t: Shell, attrs: map<string, Option<Value>>)
    requires ShellOk(s) && ShellOk(t) && op.IsPayload() && !op.SetAttrs?
    requires op.Modify? ==>
      s.text == Some(op.before) && t.text == Some(op.now) && op.before.x != op.now.x &&
      T.Apply(op.before.x, op.edits) == T.Ok(op.now.x)
    requires op.Format? ==>
      s.text.Some? && t.text.Some? && s.text.value.x == t.text.value.x && op.oldRuns == s.text.value.f &&
      op.newRuns == t.text.value.f
    ensures PayloadOk(op, s)
    ensures var g := GatherOne(s, Gathered([], [], attrs), op);
            g.Ok? && g.value.attrs == attrs &&
              ComposeText(s.text, SortedEdits(g.value.edits), g.value.sources) == Ok(t.text)
  {
    var g := GatherOne(s, Gathered([], [], attrs), op);
    if op.Modify? {
      var changed := R.ProjectRuns(op.before.f, op.edits) != Some(op.now.f);
      var source := Source(op.now.f, op.edits, changed);
      assert [] + op.edits == op.edits && [] + [source] == [source];
      assert op.edits != [] by {
        assert T.Apply(op.before.x, []) == T.Ok(op.before.x) by { assert op.before.x[0..] == op.before.x; }
      }
      OneModify(op.before, op.now, op.edits, changed);
    } else {
      var source := Source(op.newRuns, [], true);
      assert [] + [source] == [source];
      OneFormat(s.text.value, op.newRuns);
    }
  }

  lemma {:induction false} NothingToCompose(s: Shell)
    ensures ComposeText(s.text, SortedEdits([]), []) == Ok(s.text)
    ensures R.ApplyDelta(s.attrs, map[]) == s.attrs
  {
    ValidSorted([], 0);
  }

  /** One attribute operation gathers exactly the attribute changes. */
  lemma {:induction false} AttrsOpReaches(op: Op, s: Shell, t: Shell, g: Gathered)
    requires op.SetAttrs? && op.oldAttrs == s.attrs && op.newAttrs == t.attrs && g.attrs == map[]
    requires ShellOk(s) && ShellOk(t)
    ensures PayloadOk(op, s)
    ensures var r := GatherOne(s, g, op);
            r.Ok? && r.value.edits == g.edits && r.value.sources == g.sources &&
              R.ApplyDelta(s.attrs, r.value.attrs) == t.attrs
  {
    R.ApplyChanges(s.attrs, t.attrs);
    assert map[] + R.Changes(s.attrs, t.attrs) == R.Changes(s.attrs, t.attrs);
  }

  /** All payloads are legal and gather to something that composes to t. */
  ghost predicate Gathers(s: Shell, t: Shell, ops: seq<Op>) {
    && (forall op :: op in ops ==> PayloadOk(op, s))
    && var g := Gather(s, ops);
       g.Ok? && ComposeText(s.text, SortedEdits(g.value.edits), g.value.sources) == Ok(t.text) &&
         R.ApplyDelta(s.attrs, g.value.attrs) == t.attrs
  }

  lemma {:induction false} GathersNone(s: Shell, t: Shell)
    requires s.text == t.text && s.attrs == t.attrs
    ensures Gathers(s, t, [])
  {
    NothingToCompose(s);
  }

  lemma {:induction false} GathersOne(op: Op, n: NodeRef, s: Shell, t: Shell)
    requires Leads([op], n, s, t) && ShellOk(s) && ShellOk(t)
    ensures Gathers(s, t, [op])
  {
    assert op in [op] && [op][..0] == [] && Gather(s, []) == Ok(NOTHING);
    NothingToCompose(s);
    if op.SetAttrs? {
      AttrsOpReaches(op, s, t, NOTHING);
    } else {
      TextOpReaches(op, n, s, t, map[]);
    }
  }

  lemma {:induction false} GathersTwo(op: Op, op': Op, n: NodeRef, s: Shell, t: Shell)
    requires Leads([op, op'], n, s, t) && ShellOk(s) && ShellOk(t)
    ensures Gathers(s, t, [op, op'])
  {
    var ops := [op, op'];
    assert op in ops && op' in ops && ops[0].SetAttrs? != ops[1].SetAttrs?;
    assert ops[..1] == [op] && [op][..0] == [] && Gather(s, []) == Ok(NOTHING);
    assert Gather(s, ops[..1]) == GatherOne(s, NOTHING, op);
    if op.SetAttrs? {
      AttrsOpReaches(op, s, t, NOTHING);
      TextOpReaches(op', n, s, t, GatherOne(s, NOTHING, op).value.attrs);
    } else {
      TextOpReaches(op, n, s, t, map[]);
      AttrsOpReaches(op', s, t, GatherOne(s, NOTHING, op).value);
    }
  }

  /** The operations between two shells of one kind compose exactly to the target. */
  lemma {:induction false} ComposedReaches(ops: seq<Op>, n: NodeRef, s: Shell, t: Shell)
    requires Leads(ops, n, s, t)
    requires ShellOk(s) && ShellOk(t) && s.kind == t.kind
    ensures Composed(s, ops) == Ok(t)
    ensures forall op :: op in ops ==> PayloadOk(op, s)
  {
    assert Gathers(s, t, ops) by {
      if ops == [] {
        GathersNone(s, t);
      } else if |ops| == 1 {
        assert ops == [ops[0]];
        GathersOne(ops[0], n, s, t);
      } else {
        assert ops == [ops[0], ops[1]];
        GathersTwo(ops[0], ops[1], n, s, t);
      }
    }
  }
}
