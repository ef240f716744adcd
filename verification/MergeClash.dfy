/**
 * When two operations on one node, one from each side of a three-way merge, are
 * incompatible: the tests of the merge against what composing the operations does.
 */
module MergeClashes {
  import opened Options
  import opened Model
  import opened Graphs
  import K = Compose
  import R = Runs
  import T = TextDiff
  import X = TextMerge

  // ----- the tests ---------------------------------------------------------

  /** The attributes of the first run that covers p. */
  function Cover(runs: seq<Run>, p: nat): Attrs {
    if runs == [] then map[]
    else if runs[0].start <= p < runs[0].end then runs[0].attrs
    else Cover(runs[1..], p)
  }

  lemma {:induction false} CoverIs(runs: seq<Run>, p: nat)
    requires Ordered(runs)
    ensures Cover(runs, p) == AttrsAt(runs, p)
  {
    if runs != [] {
      CoverIs(runs[1..], p);
      if p < runs[0].start { NoneCovers(runs[1..], p); }
    }
  }

  lemma {:induction false} NoneCovers(runs: seq<Run>, p: nat)
    requires forall i :: 0 <= i < |runs| ==> p < runs[i].start
    ensures Cover(runs, p) == map[]
  {
    if runs != [] { NoneCovers(runs[1..], p); }
  }

  /** Two formattings of one text disagree at a boundary of some run. */
  predicate FormatsConflict(before: seq<Run>, a: seq<Run>, b: seq<Run>) {
    exists p :: p in R.Boundaries(before) + R.Boundaries(a) + R.Boundaries(b) &&
      R.Disagree(Cover(before, p), Cover(a, p), Cover(b, p))
  }

  /** The test of a pair; `texts` stands for the tests between formatting and text. */
  predicate Incompatible(a: Op, b: Op, texts: (Op, Op) -> bool) {
    match (a, b)
    case (Move(_, _, _), Move(_, _, _)) => true
    case (SetAttrs(_, before, a'), SetAttrs(_, _, b')) => R.Disagree(before, a', b')
    case (Modify(_, es, _, _), Modify(_, fs, _, _)) => X.Conflicts(es, fs) || texts(a, b)
    case (Format(_, before, f), Format(_, _, g)) => FormatsConflict(before, f, g)
    case (Format(_, _, _), Modify(_, _, _, _)) => texts(a, b)
    case (Modify(_, _, _, _), Format(_, _, _)) => texts(a, b)
    case _ => false
  }

  // ----- formatting --------------------------------------------------------

  lemma {:induction false} TwoBoundaries(before: seq<Run>, a: seq<Run>, b: seq<Run>)
    ensures R.AllBoundaries(before, [a, b]) == R.Boundaries(before) + R.Boundaries(a) + R.Boundaries(b)
  {
    var ps := [a, b];
    assert ps[0] in ps && ps[1] in ps;
  }

  lemma {:induction false} TwoConflict(before: seq<Run>, a: seq<Run>, b: seq<Run>, p: nat)
    requires Ordered(before) && Ordered(a) && Ordered(b)
    ensures R.ConflictAt(before, [a, b], p) <==> R.Disagree(Cover(before, p), Cover(a, p), Cover(b, p))
  {
    CoverIs(before, p);
    CoverIs(a, p);
    CoverIs(b, p);
    var ps := [a, b];
    if R.Disagree(AttrsAt(before, p), AttrsAt(a, p), AttrsAt(b, p)) {
      assert R.Disagree(AttrsAt(before, p), AttrsAt(ps[0], p), AttrsAt(ps[1], p));
    }
  }

  /** Looking at run boundaries only, the test finds a conflict exactly when merging the two formattings fails. */
  lemma {:induction false} FormatsConflictIff(before: seq<Run>, a: seq<Run>, b: seq<Run>)
    requires Ordered(before) && Ordered(a) && Ordered(b)
    ensures FormatsConflict(before, a, b) <==> R.MergeProposals(before, [a, b]).None?
  {
    TwoBoundaries(before, a, b);
    R.MergeConflictsIff(before, [a, b]);
    if p :| p in R.Boundaries(before) + R.Boundaries(a) + R.Boundaries(b) &&
            R.Disagree(Cover(before, p), Cover(a, p), Cover(b, p)) {
      TwoConflict(before, a, b, p);
    }
    if R.MergeProposals(before, [a, b]).None? {
      var p := R.MergeFailsAt(before, [a, b]);
      TwoConflict(before, a, b, p);
    }
  }

  // ----- composing the pair ------------------------------------------------

  lemma {:induction false} GatherPair(w: Shell, op: Op, op': Op)
    ensures var g := K.GatherOne(w, K.NOTHING, op);
      K.Gather(w, [op, op']) == if g.Err? then g else K.GatherOne(w, g.value, op')
  {
    assert [op, op'][..1] == [op] && [op][..0] == [];
    assert K.Gather(w, []) == K.Ok(K.NOTHING);
    assert K.Gather(w, [op]) == K.GatherOne(w, K.NOTHING, op);
  }

  /** Two attribute changes of one node compose exactly when the test passes them. */
  lemma {:induction false} AttrsClashIff(w: Shell, op: Op, op': Op, texts: (Op, Op) -> bool)
    requires op.SetAttrs? && op'.SetAttrs? && op.oldAttrs == w.attrs == op'.oldAttrs
    requires K.PayloadOk(op, w) && K.PayloadOk(op', w)
    ensures K.Composed(w, [op, op']).Err? <==> Incompatible(op, op', texts)
  {
    var c := R.Changes(w.attrs, op.newAttrs);
    GatherPair(w, op, op');
    assert map[] + c == c;
    R.DisagreeIsClash(w.attrs, op.newAttrs, op'.newAttrs);
    K.NothingToCompose(w);
  }

  lemma {:induction false} TwoProposals(f: seq<Run>, g: seq<Run>)
    requires Canonical(f) && Canonical(g)
    ensures K.Proposals([], [K.Source(f, [], true), K.Source(g, [], true)]) == K.Ok([f, g])
  {
    var s, t := K.Source(f, [], true), K.Source(g, [], true);
    R.ProjectIdentity(f);
    R.ProjectIdentity(g);
    assert [s, t][..1] == [s] && [s][..0] == [];
    assert K.Proposals([], []) == K.Ok([]);
    assert [] + [f] == [f];
    assert K.Proposals([], [s]) == K.Ok([f]);
    assert [f] + [g] == [f, g];
  }

  lemma {:induction false} FormatTwice(base: Text, f: seq<Run>, g: seq<Run>)
    requires Canonical(base.f) && Canonical(f) && Canonical(g)
    ensures K.ComposeText(Some(base), [], [K.Source(f, [], true), K.Source(g, [], true)]).Err? <==>
            R.MergeProposals(base.f, [f, g]).None?
  {
    TwoProposals(f, g);
    R.ProjectIdentity(base.f);
    T.AppliesIffValid(base.x, []);
  }

  /** Two formattings of one node compose exactly when the test passes them. */
  lemma {:induction false} FormatsClashIff(w: Shell, op: Op, op': Op, texts: (Op, Op) -> bool)
    requires op.Format? && op'.Format? && w.text.Some? && op.oldRuns == w.text.value.f == op'.oldRuns
    requires K.PayloadOk(op, w) && K.PayloadOk(op', w)
    ensures K.Composed(w, [op, op']).Err? <==> Incompatible(op, op', texts)
  {
    var s, t := K.Source(op.newRuns, [], true), K.Source(op'.newRuns, [], true);
    GatherPair(w, op, op');
    assert [] + [s] == [s] && [s] + [t] == [s, t];
    K.ValidSorted([], 0);
    FormatTwice(w.text.value, op.newRuns, op'.newRuns);
    FormatsConflictIff(op.oldRuns, op.newRuns, op'.newRuns);
  }

  /** Two edits of one text that the test rejects for their positions do not compose. */
  lemma {:induction false} EditsClash(w: Shell, op: Op, op': Op)
    requires op.Modify? && op'.Modify? && w.text.Some? && X.Conflicts(op.edits, op'.edits)
    requires T.Valid(op.edits, |w.text.value.x|) && T.Valid(op'.edits, |w.text.value.x|)
    ensures K.Composed(w, [op, op']).Err?
  {
    X.MergeAppliesIff(w.text.value.x, op.edits, op'.edits);
    if K.Composed(w, [op, op']).Ok? { X.ComposedText(w, op, op'); }
  }
}
