/**
 * Where the positions of a text lie after edits, and what formatting projected
 * through the edits gives to them.
 */
module RunImages {
  import opened Model
  import opened Options
  import opened TextDiff
  import R = Runs
  import X = TextMerge

  // ----- how far a position moves ------------------------------------------

  /** The length of an insertion at p that deletes nothing. */
  function InsertsAt(edits: seq<Edit>, p: nat): nat {
    if edits == [] then 0
    else if edits[0].at == p && edits[0].del == 0 then |edits[0].ins|
    else InsertsAt(edits[1..], p)
  }

  /** An edit deletes on both sides of p. */
  predicate Inside(edits: seq<Edit>, p: nat) {
    exists e :: e in edits && e.at < p < e.at + e.del
  }

  lemma {:induction false} NothingBefore(edits: seq<Edit>, p: nat)
    requires R.AllFrom(edits, p)
    ensures Before(edits, p) == 0
  {
    if edits != [] { NothingBefore(edits[1..], p); }
  }

  lemma {:induction false} SameBefore(edits: seq<Edit>, p: nat, q: nat)
    requires p <= q && forall e :: e in edits ==> e.at < p || q <= e.at
    ensures Before(edits, p) == Before(edits, q)
  {
    if edits != [] {
      assert edits[0] in edits && forall e :: e in edits[1..] ==> e in edits;
      SameBefore(edits[1..], p, q);
    }
  }

  lemma {:induction false} NoInsertion(edits: seq<Edit>, p: nat)
    requires forall e :: e in edits ==> e.at != p
    ensures InsertsAt(edits, p) == 0
  {
    if edits != [] { NoInsertion(edits[1..], p); }
  }

  lemma {:induction false} InsideCons(edits: seq<Edit>, p: nat)
    requires edits != []
    ensures Inside(edits, p) <==> edits[0].at < p < edits[0].at + edits[0].del || Inside(edits[1..], p)
  {
    assert edits == [edits[0]] + edits[1..];
  }

  lemma {:induction false} InsideNone(edits: seq<Edit>, p: nat)
    requires R.AllFrom(edits, p)
    ensures !Inside(edits, p)
  {}

  lemma {:induction false} FromElements(edits: seq<Edit>, p: nat)
    requires R.AllFrom(edits, p + 1)
    ensures R.AllFrom(edits, p) && forall e :: e in edits ==> e.at != p
  {}

  /** A boundary moves by what the edits before it do; a start also past an insertion at it. */
  lemma {:induction false} DisplacementIs(p: nat, start: bool, edits: seq<Edit>, len: nat)
    requires Valid(edits, len)
    ensures R.Displacement(p, start, edits) ==
            if Inside(edits, p) then None else Some(Before(edits, p) + if start then InsertsAt(edits, p) else 0)
  {
    if edits != [] {
      var e, rest := edits[0], edits[1..];
      R.TailValid(edits, len);
      InsideCons(edits, p);
      if p <= e.at {
        Settled(rest, e.at, p);
        if p == e.at && e.del == 0 { DisplacementIs(p, start, rest, len); }
      } else {
        DisplacementIs(p, start, rest, len);
        if p < e.at + e.del {
          assert R.AllFrom(rest, p);
        }
      }
    }
  }

  /** Edits behind p do nothing to p. */
  lemma {:induction false} Settled(edits: seq<Edit>, at: nat, p: nat)
    requires R.AllFrom(edits, at + 1) && p <= at
    ensures Before(edits, p) == 0 && !Inside(edits, p) && InsertsAt(edits, p) == 0
  {
    assert R.AllFrom(edits, p + 1);
    FromElements(edits, p);
    NothingBefore(edits, p);
    InsideNone(edits, p);
    NoInsertion(edits, p);
  }

  // ----- lengths of the edited text ----------------------------------------

  lemma {:induction false} InsideFront(edits: seq<Edit>, e: Edit, p: nat)
    requires !Inside(edits + [e], p)
    ensures !Inside(edits, p) && !(e.at < p < e.at + e.del)
  {
    assert e in edits + [e] && forall d :: d in edits ==> d in edits + [e];
  }

  lemma {:induction false} LengthBehind(base: string, front: seq<Edit>, e: Edit, p: nat)
    requires Valid(front + [e], |base|) && e.at < p <= |base| && !(e.at < p < e.at + e.del)
    requires |X.Places(base, front, e.at)| == e.at + Before(front, e.at)
    ensures |X.Places(base, front + [e], p)| == p + Before(front, p) + Gain(e)
  {
    X.AllBefore(front, e, |base|);
    AllBefore(front, e.at, p);
    X.PlacesBehind(base, front, e, p);
    X.TailTo(base, e, p);
  }

  lemma {:induction false} NotInside(front: seq<Edit>, e: Edit, len: nat)
    requires Valid(front + [e], len)
    ensures !Inside(front, e.at)
  {
    X.AllBefore(front, e, len);
  }

  lemma {:induction false} LengthNext(base: string, front: seq<Edit>, e: Edit, p: nat)
    requires Valid(front + [e], |base|) && p <= |base| && !(e.at < p < e.at + e.del)
    requires p <= e.at ==> |X.Places(base, front, p)| == p + Before(front, p)
    requires e.at < p ==> |X.Places(base, front, e.at)| == e.at + Before(front, e.at)
    ensures |X.Places(base, front + [e], p)| == p + Before(front + [e], p)
  {
    BeforeSnoc(front, e, p);
    if p <= e.at { X.PlacesBefore(base, front, e, p); } else { LengthBehind(base, front, e, p); }
  }

  /** The last edit taken off. */
  lemma {:induction false} LastOff(edits: seq<Edit>, len: nat, p: nat)
    requires Valid(edits, len) && edits != [] && !Inside(edits, p)
    ensures var front, e := edits[..|edits| - 1], edits[|edits| - 1];
      && edits == front + [e] && Valid(front, len) && e.at <= len && !Inside(front, p) && !Inside(front, e.at)
      && !(e.at < p < e.at + e.del)
  {
    var front, e := edits[..|edits| - 1], edits[|edits| - 1];
    assert edits == front + [e];
    X.LastInside(front, e, len);
    InsideFront(front, e, p);
    NotInside(front, e, len);
  }

  /** The text before p has grown by what the edits before p did. */
  lemma {:induction false} PlacesLength(base: string, edits: seq<Edit>, p: nat)
    requires Valid(edits, |base|) && p <= |base| && !Inside(edits, p)
    ensures |X.Places(base, edits, p)| == p + Before(edits, p)
    decreases |edits|
  {
    if edits == [] {
      X.PlacesUntouched(base, p);
    } else {
      var front, e := edits[..|edits| - 1], edits[|edits| - 1];
      LastOff(edits, |base|, p);
      if p <= e.at { PlacesLength(base, front, p); } else { PlacesLength(base, front, e.at); }
      LengthNext(base, front, e, p);
    }
  }

  /** Where a run boundary goes: the length of the edited text before it, and whether it can go there. */
  lemma {:induction false} ProjectPointIs(base: string, edits: seq<Edit>, p: nat, start: bool)
    requires Valid(edits, |base|) && p <= |base|
    ensures R.ProjectPoint(p, start, edits) ==
            if Inside(edits, p) then None
            else Some(|X.Places(base, edits, p)| + if start then InsertsAt(edits, p) else 0)
  {
    DisplacementIs(p, start, edits, |base|);
    if !Inside(edits, p) { PlacesLength(base, edits, p); }
  }

  // ----- images of positions -----------------------------------------------

  /** Where position p stands in the edited text, unless it is deleted. */
  function Image(base: string, edits: seq<Edit>, p: nat): nat
    requires p < |base|
  {
    |X.Places(base, edits, p)| + |X.Inserted(edits, p)|
  }

  lemma {:induction false} PlacesPrefix(base: string, edits: seq<Edit>, p: nat, q: nat)
    requires p <= q <= |base|
    ensures X.Places(base, edits, p) <= X.Places(base, edits, q)
  {
    if p < q { PlacesPrefix(base, edits, p, q - 1); }
  }

  lemma {:induction false} ImageNext(base: string, edits: seq<Edit>, p: nat)
    requires p < |base| && !X.Deletes(edits, p)
    ensures |X.Places(base, edits, p + 1)| == Image(base, edits, p) + 1
    ensures X.Places(base, edits, p + 1)[Image(base, edits, p)] == base[p]
  {}

  /** The edited text shows the position at its image. */
  lemma {:induction false} ImageShows(base: string, edits: seq<Edit>, p: nat)
    requires Valid(edits, |base|) && p < |base| && !X.Deletes(edits, p)
    ensures Apply(base, edits).Ok? && Image(base, edits, p) < |Apply(base, edits).text|
    ensures Apply(base, edits).text[Image(base, edits, p)] == base[p]
  {
    X.ApplyRenders(base, edits);
    ImageNext(base, edits, p);
    PlacesPrefix(base, edits, p + 1, |base|);
  }

  lemma {:induction false} NotSplit(edits: seq<Edit>, p: nat)
    requires !X.Deletes(edits, p)
    ensures !Inside(edits, p + 1)
  {
    assert forall e :: e in edits ==> !(e.at <= p < e.at + e.del);
  }

  lemma {:induction false} ImageIs(base: string, edits: seq<Edit>, p: nat)
    requires Valid(edits, |base|) && p < |base| && !X.Deletes(edits, p)
    ensures Image(base, edits, p) == p + Before(edits, p + 1)
  {
    NotSplit(edits, p);
    PlacesLength(base, edits, p + 1);
    ImageNext(base, edits, p);
  }

  /** An insertion at a position that stays deletes nothing. */
  lemma {:induction false} InsertedLength(edits: seq<Edit>, len: nat, p: nat)
    requires Valid(edits, len) && !X.Deletes(edits, p)
    ensures |X.Inserted(edits, p)| == InsertsAt(edits, p)
  {
    if i :| 0 <= i < |edits| && edits[i].at == p {
      assert edits[i] in edits;
      X.InsertedBy(edits, len, edits[i]);
      InsertsBy(edits, len, i);
    } else {
      X.InsertedByNone(edits, p);
      NoInsertion(edits, p);
    }
  }

  lemma {:induction false} InsertsBy(edits: seq<Edit>, len: nat, i: nat)
    requires Valid(edits, len) && i < |edits| && edits[i].del == 0
    ensures InsertsAt(edits, edits[i].at) == |edits[i].ins|
  {
    if i > 0 {
      R.TailValid(edits, len);
      InsertsBy(edits[1..], len, i - 1);
    }
  }

  // ----- projected formatting ----------------------------------------------

  /** A start before p stays before what is shown from p on. */
  lemma {:induction false} StartBefore(base: string, edits: seq<Edit>, s: nat, p: nat)
    requires Valid(edits, |base|) && s < p <= |base|
    ensures |X.Places(base, edits, s)| + InsertsAt(edits, s) <= |X.Places(base, edits, p)|
  {
    X.PlacesSnoc(base, edits, s);
    PlacesPrefix(base, edits, s + 1, p);
    InsertsShown(edits, |base|, s);
  }

  lemma {:induction false} InsertsShown(edits: seq<Edit>, len: nat, p: nat)
    requires Valid(edits, len)
    ensures InsertsAt(edits, p) <= |X.Inserted(edits, p)|
  {
    if i :| 0 <= i < |edits| && edits[i].at == p {
      assert edits[i] in edits;
      X.InsertedBy(edits, len, edits[i]);
      if edits[i].del == 0 { InsertsBy(edits, len, i); } else { NoPlain(edits, len, i); }
    } else {
      NoInsertion(edits, p);
    }
  }

  lemma {:induction false} NoPlain(edits: seq<Edit>, len: nat, i: nat)
    requires Valid(edits, len) && i < |edits| && edits[i].del > 0
    ensures InsertsAt(edits, edits[i].at) == 0
  {
    R.TailValid(edits, len);
    if i > 0 { NoPlain(edits[1..], len, i - 1); } else {
      assert R.AllFrom(edits[1..], edits[0].at + 1);
      FromElements(edits[1..], edits[0].at);
      NoInsertion(edits[1..], edits[0].at);
    }
  }

  lemma {:induction false} StartsBy(base: string, edits: seq<Edit>, s: nat, p: nat)
    requires Valid(edits, |base|) && p < |base| && !X.Deletes(edits, p) && s <= |base|
    ensures s <= p <==> |X.Places(base, edits, s)| + InsertsAt(edits, s) <= Image(base, edits, p)
  {
    InsertedLength(edits, |base|, p);
    if s < p {
      StartBefore(base, edits, s, p);
    } else if p < s {
      ImageNext(base, edits, p);
      PlacesPrefix(base, edits, p + 1, s);
    }
  }

  lemma {:induction false} EndsAfter(base: string, edits: seq<Edit>, e: nat, p: nat)
    requires p < |base| && !X.Deletes(edits, p) && e <= |base|
    ensures p < e <==> Image(base, edits, p) < |X.Places(base, edits, e)|
  {
    if p < e {
      ImageNext(base, edits, p);
      PlacesPrefix(base, edits, p + 1, e);
    } else {
      PlacesPrefix(base, edits, e, p);
    }
  }

  /** The projection of a run covers the image of a position exactly when the run covers the position. */
  lemma {:induction false} CoversImage(base: string, edits: seq<Edit>, r: Run, p: nat)
    requires Valid(edits, |base|) && p < |base| && !X.Deletes(edits, p) && r.start <= |base| && r.end <= |base|
    requires R.ProjectPoint(r.start, true, edits).Some? && R.ProjectPoint(r.end, false, edits).Some?
    ensures r.start <= p < r.end <==>
            R.ProjectPoint(r.start, true, edits).value <= Image(base, edits, p) <
            R.ProjectPoint(r.end, false, edits).value
  {
    ProjectPointIs(base, edits, r.start, true);
    ProjectPointIs(base, edits, r.end, false);
    StartsBy(base, edits, r.start, p);
    EndsAfter(base, edits, r.end, p);
  }

  lemma {:induction false} LastRun(runs: seq<Run>, p: nat)
    requires Canonical(runs) && runs != []
    ensures var n := |runs| - 1;
      AttrsAt(runs, p) == if runs[n].start <= p < runs[n].end then runs[n].attrs else AttrsAt(runs[..n], p)
  {
    var n := |runs| - 1;
    R.FrontOf(runs);
    R.AddLast(runs);
    R.AddRunMeaning(runs[..n], runs[n].start, runs[n].end, runs[n].attrs, p);
  }

  lemma {:induction false} ProjectedLast(runs: seq<Run>, edits: seq<Edit>, len: nat, q: nat)
    requires Valid(edits, len) && Canonical(runs) && runs != [] && R.ProjectRuns(runs, edits).Some?
    ensures var n := |runs| - 1;
      && R.ProjectRuns(runs[..n], edits).Some?
      && R.ProjectPoint(runs[n].start, true, edits).Some? && R.ProjectPoint(runs[n].end, false, edits).Some?
      && AttrsAt(R.ProjectRuns(runs, edits).value, q) ==
         if R.ProjectPoint(runs[n].start, true, edits).value <= q < R.ProjectPoint(runs[n].end, false, edits).value
         then runs[n].attrs
         else AttrsAt(R.ProjectRuns(runs[..n], edits).value, q)
  {
    var n := |runs| - 1;
    R.FrontOf(runs);
    var start, end := R.ProjectPoint(runs[n].start, true, edits).value, R.ProjectPoint(runs[n].end, false, edits).value;
    R.ProjectCanonical(runs[..n], edits, len);
    R.ProjectEndsBy(runs[..n], edits, len, runs[n].start);
    if start < end { R.AddRunMeaning(R.ProjectRuns(runs[..n], edits).value, start, end, runs[n].attrs, q); }
  }

  /** A position that stays keeps its attributes. */
  lemma {:induction false} ProjectKeepsAttrs(base: string, edits: seq<Edit>, runs: seq<Run>, p: nat)
    requires Valid(edits, |base|) && Canonical(runs) && R.EndsBy(runs, |base|) && R.ProjectRuns(runs, edits).Some?
    requires p < |base| && !X.Deletes(edits, p)
    ensures AttrsAt(R.ProjectRuns(runs, edits).value, Image(base, edits, p)) == AttrsAt(runs, p)
    decreases |runs|
  {
    if runs != [] {
      var n := |runs| - 1;
      R.FrontOf(runs);
      ProjectedLast(runs, edits, |base|, Image(base, edits, p));
      LastRun(runs, p);
      assert runs[n].start < runs[n].end;
      CoversImage(base, edits, runs[n], p);
      ProjectKeepsAttrs(base, edits, runs[..n], p);
    }
  }

  // ----- inserted text -----------------------------------------------------

  /** The attributes of the run that holds the text on both sides of p. */
  function Across(runs: seq<Run>, p: nat): Attrs {
    if runs == [] then map[]
    else
      var last := runs[|runs| - 1];
      if last.start < p < last.end then last.attrs else Across(runs[..|runs| - 1], p)
  }

  /** The place of the k-th inserted character of an insertion at p. */
  function InsertedAt(base: string, edits: seq<Edit>, p: nat, k: nat): nat
    requires p <= |base|
  {
    |X.Places(base, edits, p)| + k
  }

  lemma {:induction false} StartsBeforeInsertion(base: string, edits: seq<Edit>, s: nat, i: nat, k: nat)
    requires Valid(edits, |base|) && i < |edits| && edits[i].del == 0 && k < |edits[i].ins| && s <= |base|
    ensures s < edits[i].at <==>
            |X.Places(base, edits, s)| + InsertsAt(edits, s) <= InsertedAt(base, edits, edits[i].at, k)
  {
    var p := edits[i].at;
    InsertsBy(edits, |base|, i);
    if s < p {
      StartBefore(base, edits, s, p);
    } else if p < s {
      StartBefore(base, edits, p, s);
    }
  }

  lemma {:induction false} EndsBehindInsertion(base: string, edits: seq<Edit>, e: nat, i: nat, k: nat)
    requires Valid(edits, |base|) && i < |edits| && edits[i].del == 0 && k < |edits[i].ins| && e <= |base|
    ensures edits[i].at < e <==> InsertedAt(base, edits, edits[i].at, k) < |X.Places(base, edits, e)|
  {
    var p := edits[i].at;
    InsertsBy(edits, |base|, i);
    if p < e { StartBefore(base, edits, p, e); } else { PlacesPrefix(base, edits, e, p); }
  }

  lemma {:induction false} CoversInsertion(base: string, edits: seq<Edit>, r: Run, i: nat, k: nat)
    requires Valid(edits, |base|) && i < |edits| && edits[i].del == 0 && k < |edits[i].ins|
    requires r.start <= |base| && r.end <= |base|
    requires R.ProjectPoint(r.start, true, edits).Some? && R.ProjectPoint(r.end, false, edits).Some?
    ensures r.start < edits[i].at < r.end <==>
            R.ProjectPoint(r.start, true, edits).value <= InsertedAt(base, edits, edits[i].at, k) <
            R.ProjectPoint(r.end, false, edits).value
  {
    ProjectPointIs(base, edits, r.start, true);
    ProjectPointIs(base, edits, r.end, false);
    StartsBeforeInsertion(base, edits, r.start, i, k);
    EndsBehindInsertion(base, edits, r.end, i, k);
  }

  /** Inserted text takes the attributes of a run it stands in, and none at the edge of a run. */
  lemma {:induction false} InsertionAttrs(base: string, edits: seq<Edit>, runs: seq<Run>, i: nat, k: nat)
    requires Valid(edits, |base|) && Canonical(runs) && R.EndsBy(runs, |base|) && R.ProjectRuns(runs, edits).Some?
    requires i < |edits| && edits[i].del == 0 && k < |edits[i].ins|
    ensures AttrsAt(R.ProjectRuns(runs, edits).value, InsertedAt(base, edits, edits[i].at, k)) ==
            Across(runs, edits[i].at)
    decreases |runs|
  {
    if runs != [] {
      var n := |runs| - 1;
      R.FrontOf(runs);
      ProjectedLast(runs, edits, |base|, InsertedAt(base, edits, edits[i].at, k));
      assert runs[n].start < runs[n].end;
      CoversInsertion(base, edits, runs[n], i, k);
      InsertionAttrs(base, edits, runs[..n], i, k);
    }
  }
}
