/**
 * Formatting proposed by several changes of one text: every position that all
 * the edits leave has the attributes that the changes agree on for it.
 */
module FormatMerge {
  import opened Model
  import opened Options
  import opened TextDiff
  import opened RunImages
  import Graphs
  import K = Compose
  import R = Runs
  import Trees
  import X = TextMerge

  // ----- edits of others in own coordinates --------------------------------

  /** Edits of one change, among the edits of all. */
  predicate Among(base: string, own: seq<Edit>, edits: seq<Edit>) {
    Valid(edits, |base|) && Valid(own, |base|) && forall e :: e in own ==> e in edits
  }

  lemma {:induction false} Apart(edits: seq<Edit>, len: nat, d: Edit, e: Edit)
    requires Valid(edits, len) && d in edits && e in edits && d != e
    ensures (d.at < e.at && d.at + d.del <= e.at) || (e.at < d.at && e.at + e.del <= d.at)
    ensures e.at + e.del <= len
  {
    var i :| 0 <= i < |edits| && edits[i] == d;
    var j :| 0 <= j < |edits| && edits[j] == e;
  }

  /** An edit of another change neither starts nor ends inside one's own edits. */
  lemma {:induction false} Clear(base: string, own: seq<Edit>, edits: seq<Edit>, e: Edit)
    requires Among(base, own, edits) && e in edits && e !in own
    ensures e.at + e.del <= |base| && !Inside(own, e.at) && !Inside(own, e.at + e.del)
    ensures InsertsAt(own, e.at) == 0 && Before(own, e.at) == Before(own, e.at + e.del)
    ensures !X.Deletes(own, e.at)
  {
    forall d | d in own
      ensures (d.at < e.at && d.at + d.del <= e.at) || (e.at < d.at && e.at + e.del <= d.at)
    {
      Apart(edits, |base|, d, e);
    }
    var i :| 0 <= i < |edits| && edits[i] == e;
    NoInsertion(own, e.at);
    SameBefore(own, e.at, e.at + e.del);
  }

  /** An edit of another change where it falls in the text after one's own. */
  function Moved(base: string, own: seq<Edit>, e: Edit): Edit
    requires e.at <= |base|
  {
    Edit(|X.Places(base, own, e.at)|, e.del, e.ins)
  }

  predicate Within(base: string, edits: seq<Edit>) {
    forall e :: e in edits ==> e.at <= |base|
  }

  function MovedAll(base: string, own: seq<Edit>, edits: seq<Edit>): seq<Edit>
    requires Within(base, edits)
  {
    if edits == [] then []
    else
      var front, e := MovedAll(base, own, edits[..|edits| - 1]), edits[|edits| - 1];
      if e in own then front else front + [Moved(base, own, e)]
  }

  lemma {:induction false} MovedLength(base: string, own: seq<Edit>, edits: seq<Edit>, e: Edit)
    requires Among(base, own, edits) && e in edits && e !in own
    ensures e.at + e.del <= |base| && |X.Places(base, own, e.at + e.del)| == Moved(base, own, e).at + e.del
  {
    Clear(base, own, edits, e);
    PlacesLength(base, own, e.at);
    PlacesLength(base, own, e.at + e.del);
  }

  lemma {:induction false} MovedStart(base: string, own: seq<Edit>, edits: seq<Edit>, e: Edit)
    requires Among(base, own, edits) && e in edits && e !in own
    ensures e.at <= |base| && R.ProjectPoint(e.at, true, own) == Some(|X.Places(base, own, e.at)|)
  {
    Clear(base, own, edits, e);
    ProjectPointIs(base, own, e.at, true);
  }

  lemma {:induction false} MovedEnd(base: string, own: seq<Edit>, edits: seq<Edit>, e: Edit)
    requires Among(base, own, edits) && e in edits && e !in own
    ensures e.at + e.del <= |base|
    ensures R.ProjectPoint(e.at + e.del, false, own) == Some(|X.Places(base, own, e.at + e.del)|)
  {
    Clear(base, own, edits, e);
    ProjectPointIs(base, own, e.at + e.del, false);
  }

  /** Its end keeps the distance from its start. */
  lemma {:induction false} MovedEnds(base: string, own: seq<Edit>, edits: seq<Edit>, e: Edit)
    requires Among(base, own, edits) && e in edits && e !in own
    ensures e.at + e.del <= |base|
    ensures R.ProjectPoint(e.at, true, own) == Some(Moved(base, own, e).at)
    ensures R.ProjectPoint(e.at + e.del, false, own) == Some(Moved(base, own, e).at + e.del)
    ensures |X.Places(base, own, e.at + e.del)| == Moved(base, own, e).at + e.del
  {
    MovedLength(base, own, edits, e);
    MovedStart(base, own, edits, e);
    MovedEnd(base, own, edits, e);
  }

  lemma {:induction false} ValidWithin(base: string, edits: seq<Edit>)
    requires Valid(edits, |base|)
    ensures Within(base, edits)
  {}

  lemma {:induction false} MovedNext(base: string, own: seq<Edit>, front: seq<Edit>, e: Edit)
    requires Within(base, front + [e])
    ensures Within(base, front) && e.at <= |base|
    ensures MovedAll(base, own, front + [e]) ==
            if e in own then MovedAll(base, own, front) else MovedAll(base, own, front) + [Moved(base, own, e)]
  {
    assert (front + [e])[..|front|] == front && e in front + [e];
    assert forall d :: d in front ==> d in front + [e];
  }

  lemma {:induction false} ExternalNext(front: seq<Edit>, own: seq<Edit>, e: Edit, ms: seq<Edit>, at: nat)
    requires K.External(front, own) == K.Ok(ms)
    requires e !in own ==> R.ProjectPoint(e.at, true, own) == Some(at)
    requires e !in own ==> R.ProjectPoint(e.at + e.del, false, own) == Some(at + e.del)
    ensures K.External(front + [e], own) == K.Ok(if e in own then ms else ms + [Edit(at, e.del, e.ins)])
  {
    assert (front + [e])[..|front|] == front;
  }

  lemma {:induction false} ExternalStep(base: string, own: seq<Edit>, all: seq<Edit>, front: seq<Edit>, e: Edit)
    requires Among(base, own, all) && e in all && Within(base, front + [e]) && Within(base, front)
    requires K.External(front, own) == K.Ok(MovedAll(base, own, front))
    ensures K.External(front + [e], own) == K.Ok(MovedAll(base, own, front + [e]))
  {
    MovedNext(base, own, front, e);
    if e !in own { MovedEnds(base, own, all, e); }
    ExternalNext(front, own, e, MovedAll(base, own, front), Moved(base, own, e).at);
  }

  lemma {:induction false} ExternalIs(base: string, own: seq<Edit>, all: seq<Edit>, edits: seq<Edit>)
    requires Among(base, own, all) && Within(base, edits) && forall e :: e in edits ==> e in all
    ensures K.External(edits, own) == K.Ok(MovedAll(base, own, edits))
    decreases |edits|
  {
    if edits != [] {
      var front, e := edits[..|edits| - 1], edits[|edits| - 1];
      assert edits == front + [e] && e in edits && forall d :: d in front ==> d in edits;
      ExternalIs(base, own, all, front);
      ExternalStep(base, own, all, front, e);
    }
  }

  lemma {:induction false} MovedFrom(base: string, own: seq<Edit>, edits: seq<Edit>, m: Edit)
    requires Within(base, edits) && m in MovedAll(base, own, edits)
    ensures exists e :: e in edits && e !in own && m == Moved(base, own, e)
  {
    var front, e := edits[..|edits| - 1], edits[|edits| - 1];
    assert e in edits && forall d :: d in front ==> d in edits;
    if m in MovedAll(base, own, front) { MovedFrom(base, own, front, m); }
  }

  /** Edits keep their order and distance. */
  lemma {:induction false} MovedOrder(base: string, own: seq<Edit>, edits: seq<Edit>, d: Edit, e: Edit)
    requires Among(base, own, edits) && d in edits && e in edits && d !in own && e !in own
    requires d.at < e.at && d.at + d.del <= e.at <= |base|
    ensures Moved(base, own, d).at < Moved(base, own, e).at
    ensures Moved(base, own, d).at + d.del <= Moved(base, own, e).at
  {
    MovedEnds(base, own, edits, d);
    Clear(base, own, edits, d);
    PlacesPrefix(base, own, d.at + d.del, e.at);
    ImageNext(base, own, d.at);
    PlacesPrefix(base, own, d.at + 1, e.at);
  }

  lemma {:induction false} MovedFollows(base: string, own: seq<Edit>, all: seq<Edit>, front: seq<Edit>, e: Edit)
    requires Among(base, own, all) && e in all && e !in own && Within(base, front) && e.at <= |base|
    requires forall d :: d in front ==> d in all && d.at < e.at && d.at + d.del <= e.at
    ensures Follows(MovedAll(base, own, front), Moved(base, own, e))
  {
    var ms := MovedAll(base, own, front);
    if ms != [] {
      MovedFrom(base, own, front, ms[|ms| - 1]);
      var d :| d in front && d !in own && ms[|ms| - 1] == Moved(base, own, d);
      MovedOrder(base, own, all, d, e);
    }
  }

  /** The text after one's own edits. */
  function OwnText(base: string, own: seq<Edit>): string {
    X.Rendered(base, own)
  }

  lemma {:induction false} MovedInside(base: string, own: seq<Edit>, all: seq<Edit>, e: Edit)
    requires Among(base, own, all) && e in all && e !in own
    ensures e.at <= |base| && Moved(base, own, e).at + e.del <= |OwnText(base, own)|
  {
    MovedEnds(base, own, all, e);
    PlacesPrefix(base, own, e.at + e.del, |base|);
  }

  lemma {:induction false} MovedValidNext(base: string, own: seq<Edit>, all: seq<Edit>, front: seq<Edit>, e: Edit)
    requires Among(base, own, all) && e in all && Within(base, front + [e])
    requires forall d :: d in front ==> d in all && d.at < e.at && d.at + d.del <= e.at
    requires Within(base, front) && Valid(MovedAll(base, own, front), |OwnText(base, own)|)
    ensures Valid(MovedAll(base, own, front + [e]), |OwnText(base, own)|)
  {
    MovedNext(base, own, front, e);
    if e !in own {
      MovedFollows(base, own, all, front, e);
      MovedInside(base, own, all, e);
      ValidSnoc(MovedAll(base, own, front), Moved(base, own, e), |OwnText(base, own)|);
    }
  }

  lemma {:induction false} MovedValid(base: string, own: seq<Edit>, all: seq<Edit>, edits: seq<Edit>)
    requires Among(base, own, all) && Valid(edits, |base|) && forall e :: e in edits ==> e in all
    ensures Within(base, edits) && Valid(MovedAll(base, own, edits), |OwnText(base, own)|)
    decreases |edits|
  {
    ValidWithin(base, edits);
    if edits != [] {
      var front, e := edits[..|edits| - 1], edits[|edits| - 1];
      assert edits == front + [e] && e in edits && forall d :: d in front ==> d in edits;
      X.LastInside(front, e, |base|);
      X.AllBefore(front, e, |base|);
      MovedValid(base, own, all, front);
      MovedValidNext(base, own, all, front, e);
    }
  }

  // ----- images compose ----------------------------------------------------

  function Kept(edits: seq<Edit>, own: seq<Edit>): seq<Edit> {
    if edits == [] then []
    else
      var front, e := Kept(edits[..|edits| - 1], own), edits[|edits| - 1];
      if e in own then front + [e] else front
  }

  lemma {:induction false} RisingSnoc(s: seq<Edit>, e: Edit)
    requires X.Rising(s) && forall d :: d in s ==> d.at < e.at
    ensures X.Rising(s + [e])
  {}

  lemma {:induction false} KeptNext(front: seq<Edit>, own: seq<Edit>, e: Edit)
    ensures Kept(front + [e], own) == if e in own then Kept(front, own) + [e] else Kept(front, own)
  {
    assert (front + [e])[..|front|] == front;
  }

  lemma {:induction false} KeptHolds(edits: seq<Edit>, own: seq<Edit>, e: Edit)
    ensures e in Kept(edits, own) <==> e in edits && e in own
    decreases |edits|
  {
    if edits != [] {
      var front, last := edits[..|edits| - 1], edits[|edits| - 1];
      assert edits == front + [last];
      KeptHolds(front, own, e);
      KeptNext(front, own, last);
    }
  }

  lemma {:induction false} KeptRises(edits: seq<Edit>, own: seq<Edit>, len: nat)
    requires Valid(edits, len)
    ensures X.Rising(Kept(edits, own))
    decreases |edits|
  {
    if edits != [] {
      var front, e := edits[..|edits| - 1], edits[|edits| - 1];
      assert edits == front + [e];
      X.LastInside(front, e, len);
      KeptRises(front, own, len);
      KeptNext(front, own, e);
      KeptBefore(front, own, e, len);
      if e in own { RisingSnoc(Kept(front, own), e); }
    }
  }

  lemma {:induction false} KeptBefore(front: seq<Edit>, own: seq<Edit>, e: Edit, len: nat)
    requires Valid(front + [e], len)
    ensures forall d :: d in Kept(front, own) ==> d.at < e.at
  {
    X.AllBefore(front, e, len);
    forall d | d in Kept(front, own) ensures d.at < e.at { KeptHolds(front, own, d); }
  }

  lemma {:induction false} KeptIsOwn(base: string, own: seq<Edit>, edits: seq<Edit>)
    requires Among(base, own, edits)
    ensures Kept(edits, own) == own
  {
    KeptRises(edits, own, |base|);
    forall e ensures e in Kept(edits, own) <==> e in own { KeptHolds(edits, own, e); }
    X.RisingUnique(Kept(edits, own), own);
  }

  /** An edit before a position falls before its image. */
  lemma {:induction false} MovedBefore(base: string, own: seq<Edit>, e: Edit, p: nat)
    requires e.at <= |base| && p < |base| && !X.Deletes(own, p)
    ensures e.at <= p <==> Moved(base, own, e).at <= Image(base, own, p)
  {
    if e.at <= p {
      PlacesPrefix(base, own, e.at, p);
    } else {
      ImageNext(base, own, p);
      PlacesPrefix(base, own, p + 1, e.at);
    }
  }

  lemma {:induction false} BeforeSplits(base: string, own: seq<Edit>, edits: seq<Edit>, p: nat)
    requires Within(base, edits) && p < |base| && !X.Deletes(own, p)
    ensures Before(edits, p + 1) ==
            Before(MovedAll(base, own, edits), Image(base, own, p) + 1) + Before(Kept(edits, own), p + 1)
    decreases |edits|
  {
    if edits != [] {
      var front, e := edits[..|edits| - 1], edits[|edits| - 1];
      assert edits == front + [e];
      BeforeSplits(base, own, front, p);
      BeforeSnoc(front, e, p + 1);
      if e in own {
        BeforeSnoc(Kept(front, own), e, p + 1);
      } else {
        BeforeSnoc(MovedAll(base, own, front), Moved(base, own, e), Image(base, own, p) + 1);
        MovedBefore(base, own, e, p);
      }
    }
  }

  lemma {:induction false} MovedMisses(base: string, own: seq<Edit>, edits: seq<Edit>, e: Edit, p: nat)
    requires Among(base, own, edits) && e in edits && e !in own && p < |base| && !X.Deletes(own, p)
    requires !(e.at <= p < e.at + e.del)
    ensures e.at <= |base| && !(Moved(base, own, e).at <= Image(base, own, p) < Moved(base, own, e).at + e.del)
  {
    MovedLength(base, own, edits, e);
    MovedBefore(base, own, e, p);
    EndsAfter(base, own, e.at + e.del, p);
  }

  /** A position that stays under all edits stays under one's own, and then under those of the others. */
  lemma {:induction false} StaysThrough(base: string, own: seq<Edit>, edits: seq<Edit>, p: nat)
    requires Among(base, own, edits) && Within(base, edits) && p < |base| && !X.Deletes(edits, p)
    ensures !X.Deletes(own, p) && !X.Deletes(MovedAll(base, own, edits), Image(base, own, p))
  {
    var q := Image(base, own, p);
    assert !X.Deletes(own, p);
    forall m | m in MovedAll(base, own, edits) ensures !(m.at <= q < m.at + m.del) {
      MovedFrom(base, own, edits, m);
      var e :| e in edits && e !in own && m == Moved(base, own, e);
      MovedMisses(base, own, edits, e, p);
    }
  }

  lemma {:induction false} ImageInText(base: string, own: seq<Edit>, p: nat)
    requires Valid(own, |base|) && p < |base| && !X.Deletes(own, p)
    ensures Image(base, own, p) < |OwnText(base, own)|
  {
    ImageNext(base, own, p);
    PlacesPrefix(base, own, p + 1, |base|);
  }

  lemma {:induction false} ImagesAdd(base: string, own: seq<Edit>, edits: seq<Edit>, p: nat)
    requires Among(base, own, edits) && Within(base, edits) && p < |base| && !X.Deletes(edits, p) && !X.Deletes(own, p)
    ensures Image(base, edits, p) ==
            Image(base, own, p) + Before(MovedAll(base, own, edits), Image(base, own, p) + 1)
  {
    ImageIs(base, edits, p);
    ImageIs(base, own, p);
    BeforeSplits(base, own, edits, p);
    KeptIsOwn(base, own, edits);
  }

  lemma {:induction false} MovedImage(base: string, own: seq<Edit>, edits: seq<Edit>, q: nat)
    requires Among(base, own, edits) && Within(base, edits) && q < |OwnText(base, own)|
    requires !X.Deletes(MovedAll(base, own, edits), q)
    ensures Image(OwnText(base, own), MovedAll(base, own, edits), q) == q + Before(MovedAll(base, own, edits), q + 1)
  {
    MovedValid(base, own, edits, edits);
    ImageIs(OwnText(base, own), MovedAll(base, own, edits), q);
  }

  /** Going through one's own edits and then those of the others leads where all edits lead. */
  lemma {:induction false} ImageComposes(base: string, own: seq<Edit>, edits: seq<Edit>, p: nat)
    requires Among(base, own, edits) && Within(base, edits) && p < |base| && !X.Deletes(edits, p)
    ensures !X.Deletes(own, p) && Image(base, own, p) < |OwnText(base, own)|
    ensures Image(OwnText(base, own), MovedAll(base, own, edits), Image(base, own, p)) == Image(base, edits, p)
  {
    StaysThrough(base, own, edits, p);
    ImageInText(base, own, p);
    ImagesAdd(base, own, edits, p);
    MovedImage(base, own, edits, Image(base, own, p));
  }

  // ----- proposals ---------------------------------------------------------

  /** A proposal of a change: runs of the text after its own edits. */
  predicate SourceOk(base: string, edits: seq<Edit>, s: K.Source) {
    Among(base, s.own, edits) && Canonical(s.runs) && R.EndsBy(s.runs, |OwnText(base, s.own)|)
  }

  lemma {:induction false} ProposalIs(base: string, edits: seq<Edit>, s: K.Source)
    requires SourceOk(base, edits, s) && K.Proposal(edits, s).Ok?
    ensures Within(base, edits) && Valid(MovedAll(base, s.own, edits), |OwnText(base, s.own)|)
    ensures R.ProjectRuns(s.runs, MovedAll(base, s.own, edits)) == Some(K.Proposal(edits, s).value)
    ensures Canonical(K.Proposal(edits, s).value)
  {
    MovedValid(base, s.own, edits, edits);
    ExternalIs(base, s.own, edits, edits);
    R.ProjectCanonical(s.runs, MovedAll(base, s.own, edits), |OwnText(base, s.own)|);
  }

  /** A proposal gives a position that stays what its change gave it. */
  lemma {:induction false} ProposalKeeps(base: string, edits: seq<Edit>, s: K.Source, p: nat)
    requires SourceOk(base, edits, s) && K.Proposal(edits, s).Ok? && p < |base| && !X.Deletes(edits, p)
    ensures AttrsAt(K.Proposal(edits, s).value, Image(base, edits, p)) == AttrsAt(s.runs, Image(base, s.own, p))
  {
    ProposalIs(base, edits, s);
    StaysThrough(base, s.own, edits, p);
    ImageComposes(base, s.own, edits, p);
    ProjectKeepsAttrs(OwnText(base, s.own), MovedAll(base, s.own, edits), s.runs, Image(base, s.own, p));
  }

  /** What the changes that say something about formatting give to a position. */
  function Given(base: string, sources: seq<K.Source>, p: nat): seq<Attrs>
    requires p < |base|
  {
    if sources == [] then []
    else
      var front, s := Given(base, sources[..|sources| - 1], p), sources[|sources| - 1];
      if s.changed then front + [AttrsAt(s.runs, Image(base, s.own, p))] else front
  }

  predicate SourcesOk(base: string, edits: seq<Edit>, sources: seq<K.Source>) {
    forall i :: 0 <= i < |sources| ==> SourceOk(base, edits, sources[i])
  }

  predicate AllCanonical(proposals: seq<seq<Run>>) {
    forall i :: 0 <= i < |proposals| ==> Canonical(proposals[i])
  }

  lemma {:induction false} AltsSnoc(proposals: seq<seq<Run>>, last: seq<Run>, q: nat)
    ensures R.AltsAt(proposals + [last], q) == R.AltsAt(proposals, q) + [AttrsAt(last, q)]
  {}

  lemma {:induction false} ProposalsKeep(base: string, edits: seq<Edit>, sources: seq<K.Source>, p: nat)
    requires SourcesOk(base, edits, sources) && K.Proposals(edits, sources).Ok? && p < |base| && !X.Deletes(edits, p)
    ensures AllCanonical(K.Proposals(edits, sources).value)
    ensures R.AltsAt(K.Proposals(edits, sources).value, Image(base, edits, p)) == Given(base, sources, p)
    decreases |sources|
  {
    if sources != [] {
      var front, s := sources[..|sources| - 1], sources[|sources| - 1];
      assert SourceOk(base, edits, s) && forall i :: 0 <= i < |front| ==> front[i] == sources[i];
      ProposalsKeep(base, edits, front, p);
      if s.changed {
        ProposalIs(base, edits, s);
        ProposalKeeps(base, edits, s, p);
        AltsSnoc(K.Proposals(edits, front).value, K.Proposal(edits, s).value, Image(base, edits, p));
      }
    }
  }

  // ----- the composed text -------------------------------------------------

  /** The attributes of the base, unless an edit rewrote a boundary of its formatting. */
  function Baseline(base: Text, edits: seq<Edit>, p: nat): Attrs {
    if R.ProjectRuns(base.f, edits).Some? then AttrsAt(base.f, p) else map[]
  }

  lemma {:induction false} FormattedKeeps(base: Text, edits: seq<Edit>, sources: seq<K.Source>, p: nat)
    requires Valid(edits, |base.x|) && Canonical(base.f) && R.EndsBy(base.f, |base.x|)
    requires SourcesOk(base.x, edits, sources) && K.Formatted(base, edits, sources).Ok?
    requires p < |base.x| && !X.Deletes(edits, p)
    ensures R.Combined(Baseline(base, edits, p), Given(base.x, sources, p)) ==
            Some(AttrsAt(K.Formatted(base, edits, sources).value, Image(base.x, edits, p)))
  {
    var proposals := K.Proposals(edits, sources).value;
    var baseline := match R.ProjectRuns(base.f, edits) case Some(f) => f case None => [];
    ProposalsKeep(base.x, edits, sources, p);
    if R.ProjectRuns(base.f, edits).Some? {
      R.ProjectCanonical(base.f, edits, |base.x|);
      ProjectKeepsAttrs(base.x, edits, base.f, p);
    }
    assert R.AllOrdered(baseline, proposals);
    R.MergeMeaning(baseline, proposals, Image(base.x, edits, p));
  }

  /** What gathering the changes of a node leaves. */
  predicate GatheredOk(base: string, g: K.Gathered) {
    forall i :: 0 <= i < |g.sources| ==>
      var s := g.sources[i];
      && Valid(s.own, |base|) && (forall e :: e in s.own ==> e in g.edits)
      && Canonical(s.runs) && R.EndsBy(s.runs, |OwnText(base, s.own)|)
  }

  lemma {:induction false} GatherOneOk(w: Shell, g: K.Gathered, op: Graphs.Op)
    requires w.text.Some? && K.PayloadOk(op, w) && GatheredOk(w.text.value.x, g) && K.GatherOne(w, g, op).Ok?
    ensures GatheredOk(w.text.value.x, K.GatherOne(w, g, op).value)
  {
    var x := w.text.value.x;
    match op
    case Modify(_, es, before, now) =>
      AppliesIffValid(x, es);
      X.ApplyRenders(x, es);
    case Format(_, _, _) =>
      X.PlacesUntouched(x, |x|);
    case _ =>
  }

  lemma {:induction false} GatherOk(w: Shell, ops: seq<Graphs.Op>)
    requires w.text.Some? && (forall op :: op in ops ==> K.PayloadOk(op, w)) && K.Gather(w, ops).Ok?
    ensures GatheredOk(w.text.value.x, K.Gather(w, ops).value)
    decreases |ops|
  {
    if ops != [] {
      var front, op := ops[..|ops| - 1], ops[|ops| - 1];
      assert op in ops && forall o :: o in front ==> o in ops;
      GatherOk(w, front);
      GatherOneOk(w, K.Gather(w, front).value, op);
    }
  }

  /** The edits of all changes of a node, as they are applied. */
  function AllEdits(w: Shell, ops: seq<Graphs.Op>): seq<Edit> {
    var g := K.Gather(w, ops);
    if g.Ok? then K.SortedEdits(g.value.edits) else []
  }

  function AllSources(w: Shell, ops: seq<Graphs.Op>): seq<K.Source> {
    var g := K.Gather(w, ops);
    if g.Ok? then g.value.sources else []
  }

  lemma {:induction false} SortedHolds(edits: seq<Edit>)
    ensures forall e :: e in K.SortedEdits(edits) <==> e in edits
  {
    X.MergedEdits(edits, []);
    assert edits + [] == edits;
  }

  lemma {:induction false} ComposedSources(w: Shell, ops: seq<Graphs.Op>)
    requires w.text.Some? && K.Composed(w, ops).Ok?
    ensures var x := w.text.value.x; Valid(AllEdits(w, ops), |x|) && SourcesOk(x, AllEdits(w, ops), AllSources(w, ops))
    ensures K.ComposeText(w.text, AllEdits(w, ops), AllSources(w, ops)) == K.Ok(K.Composed(w, ops).value.text)
  {
    var x, g := w.text.value.x, K.Gather(w, ops).value;
    GatherOk(w, ops);
    X.ComposedParts(w, ops);
    SortedHolds(g.edits);
    AppliesIffValid(x, AllEdits(w, ops));
    if AllEdits(w, ops) == [] { assert Valid([], |x|); }
  }

  /**
   * However many changes of one text compose, every position of the base that
   * their edits leave is shown at its image, and its attributes there are those
   * of the base changed as the changes that format it agree.
   */
  lemma {:induction false} ComposedFormatting(w: Shell, ops: seq<Graphs.Op>, p: nat)
    requires w.text.Some? && Trees.RunsOk(w.text.value.f, |w.text.value.x|) && K.Composed(w, ops).Ok?
    requires AllSources(w, ops) != [] && p < |w.text.value.x| && !X.Deletes(AllEdits(w, ops), p)
    ensures var base, edits, text := w.text.value, AllEdits(w, ops), K.Composed(w, ops).value.text;
      && text.Some? && Image(base.x, edits, p) < |text.value.x| && text.value.x[Image(base.x, edits, p)] == base.x[p]
      && R.Combined(Baseline(base, edits, p), Given(base.x, AllSources(w, ops), p)) ==
         Some(AttrsAt(text.value.f, Image(base.x, edits, p)))
  {
    ComposedSources(w, ops);
    ImageShows(w.text.value.x, AllEdits(w, ops), p);
    FormattedKeeps(w.text.value, AllEdits(w, ops), AllSources(w, ops), p);
  }
}
