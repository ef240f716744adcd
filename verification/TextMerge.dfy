/**
 * Three-way merging of text: when two edit lists against one base conflict, and
 * what the merged text is where they do not.
 */
module TextMerge {
  import opened Options
  import opened TextDiff
  import Graphs
  import Model
  import K = Compose
  import S = Sorting

  // ----- conflicts ---------------------------------------------------------

  predicate EditsConflict(a: Edit, b: Edit) {
    if a == b then false
    else if a.at == b.at then true
    else if a.del == 0 then a.at > b.at && a.at < b.at + b.del
    else if b.del == 0 then b.at > a.at && b.at < a.at + a.del
    else a.at < b.at + b.del && b.at < a.at + a.del
  }

  /** Edit a ends before b starts, at a different position. */
  predicate Apart(a: Edit, b: Edit) {
    a.at < b.at && a.at + a.del <= b.at
  }

  /** Edits are free of conflict exactly when they are equal or apart. */
  lemma {:induction false} ConflictIff(a: Edit, b: Edit)
    ensures EditsConflict(a, b) <==> a != b && !Apart(a, b) && !Apart(b, a)
    ensures EditsConflict(a, b) <==> EditsConflict(b, a)
  {}

  predicate Conflicts(l: seq<Edit>, r: seq<Edit>) {
    exists a, b :: a in l && b in r && EditsConflict(a, b)
  }

  // ----- the merged edits --------------------------------------------------

  function Merged(l: seq<Edit>, r: seq<Edit>): seq<Edit> {
    K.SortedEdits(l + r)
  }

  lemma {:induction false} DedupElements(s: seq<Edit>)
    ensures forall e :: e in K.Dedup(s) <==> e in s
  {
    if |s| > 1 {
      DedupElements(s[1..]);
      assert s == [s[0]] + s[1..] && s[1] in s[1..];
    }
  }

  /** Strictly ascending in the order of edits. */
  predicate Rising(s: seq<Edit>) {
    forall i, j :: 0 <= i < j < |s| ==> K.EditLe(s[i], s[j]) && s[i] != s[j]
  }

  lemma {:induction false} RisingCons(e: Edit, rest: seq<Edit>)
    requires Rising(rest) && forall x :: x in rest ==> K.EditLe(e, x) && e != x
    ensures Rising([e] + rest)
  {
    var s := [e] + rest;
    forall i, j | 0 <= i < j < |s| ensures K.EditLe(s[i], s[j]) && s[i] != s[j] {
      if i == 0 { assert s[j] in rest; }
    }
  }

  lemma {:induction false} AllAbove(s: seq<Edit>)
    requires S.SortedBy(s, K.EditLe) && |s| > 1 && s[0] != s[1]
    ensures forall x :: x in s[1..] ==> K.EditLe(s[0], x) && s[0] != x
  {
    K.EditOrder();
    forall x | x in s[1..] ensures K.EditLe(s[0], x) && s[0] != x {
      var i :| 1 <= i < |s| && s[i] == x;
      assert K.EditLe(s[0], s[1]) && (i > 1 ==> K.EditLe(s[1], s[i])) && K.EditLe(s[0], s[i]);
    }
  }

  lemma {:induction false} TailSorted(s: seq<Edit>)
    requires S.SortedBy(s, K.EditLe) && s != []
    ensures S.SortedBy(s[1..], K.EditLe)
  {}

  lemma {:induction false} DedupRises(s: seq<Edit>)
    requires S.SortedBy(s, K.EditLe)
    ensures Rising(K.Dedup(s))
  {
    if |s| > 1 {
      TailSorted(s);
      DedupRises(s[1..]);
      if s[0] != s[1] {
        AllAbove(s);
        DedupElements(s[1..]);
        RisingCons(s[0], K.Dedup(s[1..]));
      }
    }
  }

  lemma {:induction false} SortRises(all: seq<Edit>)
    ensures Rising(K.SortedEdits(all)) && forall e :: e in K.SortedEdits(all) <==> e in all
  {
    K.EditOrder();
    var sorted := S.Sort(all, K.EditLe);
    S.SortSorted(all, K.EditLe);
    S.SameElements(all, sorted);
    DedupRises(sorted);
    DedupElements(sorted);
  }

  /** The merged edits are those of either side, in order and each once. */
  lemma {:induction false} MergedEdits(l: seq<Edit>, r: seq<Edit>)
    ensures Rising(Merged(l, r)) && forall e :: e in Merged(l, r) <==> e in l || e in r
  {
    SortRises(l + r);
  }

  lemma {:induction false} ValidApart(s: seq<Edit>, len: nat, x: Edit, y: Edit)
    requires Valid(s, len) && x in s && y in s && x != y && K.EditLe(x, y)
    ensures Apart(x, y)
  {
    var i :| 0 <= i < |s| && s[i] == x;
    var j :| 0 <= j < |s| && s[j] == y;
  }

  lemma {:induction false} MergedApart(l: seq<Edit>, r: seq<Edit>, len: nat, x: Edit, y: Edit)
    requires Valid(l, len) && Valid(r, len) && !Conflicts(l, r)
    requires (x in l || x in r) && (y in l || y in r) && x != y && K.EditLe(x, y)
    ensures Apart(x, y)
  {
    ConflictIff(x, y);
    if x in l && y in l {
      ValidApart(l, len, x, y);
    } else if x in r && y in r {
      ValidApart(r, len, x, y);
    } else {
      assert !EditsConflict(x, y);
    }
  }

  lemma {:induction false} InBounds(s: seq<Edit>, len: nat, e: Edit)
    requires Valid(s, len) && e in s
    ensures e.at + e.del <= len
  {}

  lemma {:induction false} FreeIsValid(l: seq<Edit>, r: seq<Edit>, len: nat)
    requires Valid(l, len) && Valid(r, len) && !Conflicts(l, r)
    ensures Valid(Merged(l, r), len)
  {
    var m := Merged(l, r);
    MergedEdits(l, r);
    forall i | 0 <= i < |m| ensures m[i].at + m[i].del <= len {
      assert m[i] in m;
      if m[i] in l { InBounds(l, len, m[i]); } else { InBounds(r, len, m[i]); }
    }
    forall i, j | 0 <= i < j < |m| ensures Apart(m[i], m[j]) {
      assert m[i] in m && m[j] in m;
      MergedApart(l, r, len, m[i], m[j]);
    }
  }

  lemma {:induction false} ValidIsFree(l: seq<Edit>, r: seq<Edit>, len: nat)
    requires Valid(Merged(l, r), len)
    ensures !Conflicts(l, r)
  {
    var m := Merged(l, r);
    MergedEdits(l, r);
    forall a, b | a in l && b in r ensures !EditsConflict(a, b) {
      ConflictIff(a, b);
      assert a in m && b in m;
      if a != b {
        K.EditOrder();
        if K.EditLe(a, b) { ValidApart(m, len, a, b); } else { ValidApart(m, len, b, a); }
      }
    }
  }

  /**
   * Two valid edit lists merge into one that applies if and only if no edit of one
   * conflicts with an edit of the other.
   */
  lemma {:induction false} MergeAppliesIff(base: string, l: seq<Edit>, r: seq<Edit>)
    requires Valid(l, |base|) && Valid(r, |base|)
    ensures Apply(base, Merged(l, r)).Ok? <==> !Conflicts(l, r)
  {
    AppliesIffValid(base, Merged(l, r));
    if Conflicts(l, r) {
      if Valid(Merged(l, r), |base|) { ValidIsFree(l, r, |base|); }
    } else {
      FreeIsValid(l, r, |base|);
    }
  }

  /** Which side is called left does not matter. */
  lemma {:induction false} MergeSymmetric(l: seq<Edit>, r: seq<Edit>)
    ensures Merged(l, r) == Merged(r, l)
  {
    K.EditOrder();
    assert multiset(l + r) == multiset(r + l);
    S.SortIgnoresOrder(l + r, r + l, K.EditLe);
  }

  lemma {:induction false} RisingUnique(s: seq<Edit>, t: seq<Edit>)
    requires Rising(s) && Rising(t) && forall e :: e in s <==> e in t
    ensures s == t
  {
    K.EditOrder();
    S.StrictUnique(s, t, (x: Edit, y: Edit) => K.EditLe(x, y) && x != y);
  }

  /** Merging with an unchanged side, or with the same changes, gives the changes. */
  lemma {:induction false} MergeUnchanged(l: seq<Edit>, len: nat)
    requires Valid(l, len)
    ensures Merged(l, []) == l && Merged([], l) == l && Merged(l, l) == l
  {
    MergedEdits(l, []);
    MergedEdits([], l);
    MergedEdits(l, l);
    RisingUnique(Merged(l, []), l);
    RisingUnique(Merged([], l), l);
    RisingUnique(Merged(l, l), l);
  }

  // ----- the merged text ---------------------------------------------------

  /** What is inserted before position p. */
  function Inserted(edits: seq<Edit>, p: nat): string {
    if edits == [] then ""
    else if edits[|edits| - 1].at == p then edits[|edits| - 1].ins
    else Inserted(edits[..|edits| - 1], p)
  }

  predicate Deletes(edits: seq<Edit>, p: nat) {
    exists e :: e in edits && e.at <= p < e.at + e.del
  }

  /** Position p of the base after the edits, with what is inserted before it. */
  function Place(base: string, edits: seq<Edit>, p: nat): string
    requires p < |base|
  {
    Inserted(edits, p) + (if Deletes(edits, p) then "" else [base[p]])
  }

  /** The first n positions after the edits. */
  function Places(base: string, edits: seq<Edit>, n: nat): string
    requires n <= |base|
  {
    if n == 0 then "" else Places(base, edits, n - 1) + Place(base, edits, n - 1)
  }

  /** The edited text, position by position of the base. */
  function Rendered(base: string, edits: seq<Edit>): string {
    Places(base, edits, |base|) + Inserted(edits, |base|)
  }

  lemma {:induction false} InsertedSnoc(edits: seq<Edit>, e: Edit, p: nat)
    ensures Inserted(edits + [e], p) == if e.at == p then e.ins else Inserted(edits, p)
  {
    assert (edits + [e])[..|edits|] == edits;
  }

  lemma {:induction false} DeletesSnoc(edits: seq<Edit>, e: Edit, p: nat)
    ensures Deletes(edits + [e], p) <==> Deletes(edits, p) || e.at <= p < e.at + e.del
  {
    if Deletes(edits, p) {
      var d :| d in edits && d.at <= p < d.at + d.del;
      assert d in edits + [e];
    }
    assert e in edits + [e];
  }

  /** Before the last edit only the others matter. */
  lemma {:induction false} PlacesBefore(base: string, edits: seq<Edit>, e: Edit, n: nat)
    requires n <= e.at && n <= |base|
    ensures Places(base, edits + [e], n) == Places(base, edits, n)
  {
    if n > 0 {
      PlacesBefore(base, edits, e, n - 1);
      InsertedSnoc(edits, e, n - 1);
      DeletesSnoc(edits, e, n - 1);
    }
  }

  lemma {:induction false} NothingAt(edits: seq<Edit>, p: nat)
    requires forall e :: e in edits ==> e.at < p && e.at + e.del <= p
    ensures Inserted(edits, p) == "" && !Deletes(edits, p)
  {
    if edits != [] {
      assert edits[|edits| - 1] in edits;
      NothingAt(edits[..|edits| - 1], p);
    }
  }

  lemma {:induction false} AllBefore(edits: seq<Edit>, e: Edit, len: nat)
    requires Valid(edits + [e], len)
    ensures forall d :: d in edits ==> d.at < e.at && d.at + d.del <= e.at
  {
    var all := edits + [e];
    forall d | d in edits ensures d.at < e.at && d.at + d.del <= e.at {
      var i :| 0 <= i < |edits| && edits[i] == d;
      assert all[i] == d && all[|edits|] == e;
    }
  }

  /** What position p shows at or behind the last edit. */
  lemma {:induction false} PlaceBehind(base: string, edits: seq<Edit>, e: Edit, p: nat)
    requires Valid(edits + [e], |base|) && e.at <= p < |base|
    ensures Place(base, edits + [e], p) ==
      (if p == e.at then e.ins else "") + (if p < e.at + e.del then "" else [base[p]])
  {
    AllBefore(edits, e, |base|);
    NothingAt(edits, p);
    InsertedSnoc(edits, e, p);
    DeletesSnoc(edits, e, p);
  }

  /** What is left of the base from the end of an edit to n. */
  function Tail(base: string, e: Edit, n: nat): string
    requires n <= |base|
  {
    if n <= e.at + e.del then "" else base[e.at + e.del..n]
  }

  /** What an edit leaves of position p. */
  function Left(base: string, e: Edit, p: nat): string
    requires p < |base|
  {
    if p < e.at + e.del then "" else [base[p]]
  }

  lemma {:induction false} TailStep(base: string, e: Edit, n: nat)
    requires e.at < n <= |base|
    ensures Tail(base, e, n) == Tail(base, e, n - 1) + Left(base, e, n - 1)
  {}

  lemma {:induction false} TailAll(base: string, e: Edit)
    requires e.at + e.del <= |base|
    ensures Tail(base, e, |base|) == base[e.at + e.del..]
  {}

  lemma {:induction false} TailTo(base: string, e: Edit, n: nat)
    requires e.at + e.del <= n <= |base|
    ensures Tail(base, e, n) == base[e.at + e.del..n]
  {}

  lemma {:induction false} Regroup(p: string, i: string, t: string, x: string)
    ensures p + (i + x) == p + i + ("" + x) && (p + i + t) + ("" + x) == p + i + (t + x)
  {}

  /** A text that grows by what position p shows. */
  predicate GrowsBy(text: nat -> string, shows: nat -> string, p: nat) {
    text(p + 1) == text(p) + shows(p)
  }

  predicate ShowsLeft(shows: nat -> string, base: string, e: Edit, p: nat)
    requires p < |base|
  {
    shows(p) == (if p == e.at then e.ins else "") + Left(base, e, p)
  }

  lemma {:induction false} GrowsBehind(text: nat -> string, shows: nat -> string, base: string, e: Edit, n: nat)
    requires e.at < n <= |base|
    requires forall p :: e.at <= p < n ==> GrowsBy(text, shows, p)
    requires forall p :: e.at <= p < n ==> ShowsLeft(shows, base, e, p)
    ensures text(n) == text(e.at) + e.ins + Tail(base, e, n)
  {
    assert GrowsBy(text, shows, n - 1) && ShowsLeft(shows, base, e, n - 1);
    TailStep(base, e, n);
    if n == e.at + 1 {
      Regroup(text(e.at), e.ins, "", Left(base, e, e.at));
    } else {
      GrowsBehind(text, shows, base, e, n - 1);
      Regroup(text(e.at), e.ins, Tail(base, e, n - 1), Left(base, e, n - 1));
    }
  }

  /** Behind the last edit the text goes on where its deletion ends. */
  lemma {:induction false} PlacesBehind(base: string, edits: seq<Edit>, e: Edit, n: nat)
    requires Valid(edits + [e], |base|) && e.at < n <= |base|
    ensures Places(base, edits + [e], n) == Places(base, edits, e.at) + e.ins + Tail(base, e, n)
  {
    var all := edits + [e];
    var text := (k: nat) => if k <= |base| then Places(base, all, k) else "";
    var shows := (k: nat) => if k < |base| then Place(base, all, k) else "";
    forall p | e.at <= p < n ensures GrowsBy(text, shows, p) { PlacesSnoc(base, all, p); }
    forall p | e.at <= p < n ensures ShowsLeft(shows, base, e, p) { PlaceBehind(base, edits, e, p); }
    GrowsBehind(text, shows, base, e, n);
    PlacesBefore(base, edits, e, e.at);
  }

  lemma {:induction false} PlacesSnoc(base: string, edits: seq<Edit>, p: nat)
    requires p < |base|
    ensures Places(base, edits, p + 1) == Places(base, edits, p) + Place(base, edits, p)
  {}

  lemma {:induction false} PlacesUntouched(base: string, n: nat)
    requires n <= |base|
    ensures Places(base, [], n) == base[..n]
  {
    if n > 0 { PlacesUntouched(base, n - 1); }
  }

  lemma {:induction false} LastInside(edits: seq<Edit>, e: Edit, len: nat)
    requires Valid(edits + [e], len)
    ensures Valid(edits, len) && Follows(edits, e) && e.at + e.del <= len
  {
    ValidSnoc(edits, e, len);
  }

  /** The loop has written everything before its last edit, and what that edit inserts. */
  predicate Wrote(base: string, edits: seq<Edit>, e: Edit) {
    var r := Run(base, edits + [e]);
    e.at <= |base| && r.Progress? && r.cursor == e.at + e.del && r.out == Places(base, edits, e.at) + e.ins
  }

  lemma {:induction false} RunFirst(base: string, e: Edit)
    requires e.at + e.del <= |base|
    ensures Run(base, [] + [e]) == Progress(base[..e.at] + e.ins, e.at + e.del, Some(e.at))
  {
    RunAppend(base, [], e);
    assert "" + base[0..e.at] == base[..e.at];
  }

  lemma {:induction false} WroteFirst(base: string, e: Edit)
    requires Valid([] + [e], |base|)
    ensures Wrote(base, [], e)
  {
    LastInside([], e, |base|);
    RunFirst(base, e);
    PlacesUntouched(base, e.at);
  }

  lemma {:induction false} CursorBehind(base: string, edits: seq<Edit>, e: Edit)
    requires Valid(edits + [e], |base|)
    ensures e.at + e.del <= |base| && Run(base, edits).Progress?
    ensures Run(base, edits).cursor <= e.at && Run(base, edits).previous != Some(e.at)
  {
    LastInside(edits, e, |base|);
    RunIffValid(base, edits);
  }

  lemma {:induction false} StepsOn(base: string, r: Progress, e: Edit)
    requires r.Progress? && r.cursor <= e.at && r.previous != Some(e.at) && e.at + e.del <= |base|
    ensures Step(base, r, e) == Progress(r.out + base[r.cursor..e.at] + e.ins, e.at + e.del, Some(e.at))
  {}

  lemma {:induction false} RunNext(base: string, edits: seq<Edit>, e: Edit)
    requires Valid(edits + [e], |base|)
    ensures var r, r' := Run(base, edits), Run(base, edits + [e]);
      && r.Progress? && r.cursor <= e.at && e.at + e.del <= |base|
      && r' == Progress(r.out + base[r.cursor..e.at] + e.ins, e.at + e.del, Some(e.at))
  {
    CursorBehind(base, edits, e);
    RunAppend(base, edits, e);
    StepsOn(base, Run(base, edits), e);
  }

  lemma {:induction false} WroteNext(base: string, front: seq<Edit>, d: Edit, e: Edit)
    requires Valid(front + [d] + [e], |base|) && Wrote(base, front, d)
    ensures Wrote(base, front + [d], e)
  {
    LastInside(front + [d], e, |base|);
    RunNext(base, front + [d], e);
    PlacesBehind(base, front, d, e.at);
    TailTo(base, d, e.at);
  }

  /** What the cursor loop has written up to and with its last edit. */
  lemma {:induction false} RunRenders(base: string, edits: seq<Edit>, e: Edit)
    requires Valid(edits + [e], |base|)
    ensures Wrote(base, edits, e)
    decreases |edits|
  {
    if edits == [] {
      WroteFirst(base, e);
    } else {
      var front, d := edits[..|edits| - 1], edits[|edits| - 1];
      assert edits == front + [d];
      LastInside(edits, e, |base|);
      RunRenders(base, front, d);
      WroteNext(base, front, d, e);
    }
  }

  lemma {:induction false} RenderedBehind(base: string, front: seq<Edit>, e: Edit)
    requires Valid(front + [e], |base|) && e.at + e.del <= |base|
    ensures Rendered(base, front + [e]) == Places(base, front, e.at) + e.ins + base[e.at + e.del..]
  {
    if e.at == |base| {
      PlacesBefore(base, front, e, |base|);
      InsertedSnoc(front, e, |base|);
    } else {
      PlacesBehind(base, front, e, |base|);
      NothingBehind(front, e, |base|);
      TailAll(base, e);
    }
  }

  lemma {:induction false} AppliedIs(base: string, front: seq<Edit>, e: Edit)
    requires Wrote(base, front, e) && e.at + e.del <= |base|
    ensures Apply(base, front + [e]) == Ok(Places(base, front, e.at) + e.ins + base[e.at + e.del..])
  {
    var r := Run(base, front + [e]);
    assert Apply(base, front + [e]) == Ok(r.out + base[r.cursor..]);
  }

  lemma {:induction false} AppliedBehind(base: string, front: seq<Edit>, e: Edit)
    requires Valid(front + [e], |base|)
    ensures Apply(base, front + [e]) == Ok(Rendered(base, front + [e]))
  {
    LastInside(front, e, |base|);
    RunRenders(base, front, e);
    AppliedIs(base, front, e);
    RenderedBehind(base, front, e);
  }

  /** Applying valid edits renders the base position by position. */
  lemma {:induction false} ApplyRenders(base: string, edits: seq<Edit>)
    requires Valid(edits, |base|)
    ensures Apply(base, edits) == Ok(Rendered(base, edits))
  {
    if edits == [] {
      PlacesUntouched(base, |base|);
      assert base[0..] == base[..|base|] == base;
    } else {
      assert edits == edits[..|edits| - 1] + [edits[|edits| - 1]];
      AppliedBehind(base, edits[..|edits| - 1], edits[|edits| - 1]);
    }
  }

  lemma {:induction false} NothingBehind(front: seq<Edit>, e: Edit, len: nat)
    requires Valid(front + [e], len) && e.at < len
    ensures Inserted(front + [e], len) == ""
  {
    LastInside(front, e, len);
    AllBefore(front, e, len);
    NothingAt(front, len);
    InsertedSnoc(front, e, len);
  }

  // ----- what a merge does at each position --------------------------------

  predicate Touches(edits: seq<Edit>, p: nat) {
    exists e :: e in edits && e.at == p
  }

  lemma {:induction false} InsertedBy(edits: seq<Edit>, len: nat, e: Edit)
    requires Valid(edits, len) && e in edits
    ensures Inserted(edits, e.at) == e.ins
  {
    var front, last := edits[..|edits| - 1], edits[|edits| - 1];
    if last.at == e.at {
      var i :| 0 <= i < |edits| && edits[i] == e;
    } else {
      assert edits == front + [last];
      ValidSnoc(front, last, len);
      InsertedBy(front, len, e);
    }
  }

  lemma {:induction false} InsertedByNone(edits: seq<Edit>, p: nat)
    requires !Touches(edits, p)
    ensures Inserted(edits, p) == ""
  {
    if edits != [] {
      assert edits[|edits| - 1] in edits;
      InsertedByNone(edits[..|edits| - 1], p);
    }
  }

  lemma {:induction false} MergedInserts(l: seq<Edit>, r: seq<Edit>, len: nat, p: nat)
    requires Valid(l, len) && Valid(r, len) && !Conflicts(l, r)
    ensures Inserted(Merged(l, r), p) == if Touches(l, p) then Inserted(l, p) else Inserted(r, p)
  {
    var m := Merged(l, r);
    MergedEdits(l, r);
    FreeIsValid(l, r, len);
    if e :| e in l && e.at == p {
      InsertedBy(l, len, e);
      InsertedBy(m, len, e);
    } else if e :| e in r && e.at == p {
      InsertedBy(r, len, e);
      InsertedBy(m, len, e);
    } else {
      InsertedByNone(r, p);
      InsertedByNone(m, p);
    }
  }

  /** Edits at one position on both sides insert the same. */
  lemma {:induction false} SharedInserts(l: seq<Edit>, r: seq<Edit>, len: nat, p: nat)
    requires Valid(l, len) && Valid(r, len) && !Conflicts(l, r) && Touches(l, p) && Touches(r, p)
    ensures Inserted(l, p) == Inserted(r, p)
  {
    var a :| a in l && a.at == p;
    var b :| b in r && b.at == p;
    ConflictIff(a, b);
    InsertedBy(l, len, a);
    InsertedBy(r, len, b);
  }

  lemma {:induction false} MergedDeletes(l: seq<Edit>, r: seq<Edit>, p: nat)
    ensures Deletes(Merged(l, r), p) <==> Deletes(l, p) || Deletes(r, p)
  {
    var m := Merged(l, r);
    MergedEdits(l, r);
    if e :| e in l && e.at <= p < e.at + e.del { assert e in m; }
    if e :| e in r && e.at <= p < e.at + e.del { assert e in m; }
  }

  /**
   * The merged text deletes what either side deletes, inserts what either side
   * inserts, and keeps everything else of the base in place.
   */
  lemma {:induction false} MergeMeaning(base: string, l: seq<Edit>, r: seq<Edit>)
    requires Valid(l, |base|) && Valid(r, |base|) && !Conflicts(l, r)
    ensures Apply(base, Merged(l, r)) == Ok(Rendered(base, Merged(l, r)))
    ensures forall p :: Deletes(Merged(l, r), p) <==> Deletes(l, p) || Deletes(r, p)
    ensures forall p :: Touches(l, p) ==> Inserted(Merged(l, r), p) == Inserted(l, p)
    ensures forall p :: Touches(r, p) ==> Inserted(Merged(l, r), p) == Inserted(r, p)
    ensures forall p :: !Touches(l, p) && !Touches(r, p) ==> Inserted(Merged(l, r), p) == ""
  {
    FreeIsValid(l, r, |base|);
    ApplyRenders(base, Merged(l, r));
    forall p: nat ensures Deletes(Merged(l, r), p) <==> Deletes(l, p) || Deletes(r, p) { MergedDeletes(l, r, p); }
    forall p: nat
      ensures Touches(l, p) ==> Inserted(Merged(l, r), p) == Inserted(l, p)
      ensures Touches(r, p) ==> Inserted(Merged(l, r), p) == Inserted(r, p)
      ensures !Touches(l, p) && !Touches(r, p) ==> Inserted(Merged(l, r), p) == ""
    {
      MergedInserts(l, r, |base|, p);
      if Touches(l, p) && Touches(r, p) { SharedInserts(l, r, |base|, p); }
      if !Touches(r, p) { InsertedByNone(r, p); }
    }
  }

  // ----- composing two changes of one text ---------------------------------

  lemma {:induction false} GatherTwo(w: Model.Shell, op: Graphs.Op, op': Graphs.Op)
    requires op.Modify? && op'.Modify? && K.Gather(w, [op, op']).Ok?
    ensures K.Gather(w, [op, op']).value.edits == op.edits + op'.edits && K.Gather(w, [op, op']).value.sources != []
  {
    assert [op, op'][..1] == [op] && [op][..0] == [];
    assert K.Gather(w, []) == K.Ok(K.NOTHING);
    assert [] + op.edits == op.edits;
  }

  lemma {:induction false} ComposedParts(w: Model.Shell, ops: seq<Graphs.Op>)
    requires K.Composed(w, ops).Ok?
    ensures var g := K.Gather(w, ops);
      g.Ok? &&
        K.ComposeText(w.text, K.SortedEdits(g.value.edits), g.value.sources) == K.Ok(K.Composed(w, ops).value.text)
  {}

  lemma {:induction false} TextIs(base: Model.Text, edits: seq<Edit>, sources: seq<K.Source>)
    requires K.ComposeText(Some(base), edits, sources).Ok? && sources != []
    ensures K.ComposeText(Some(base), edits, sources).value.Some?
    ensures Apply(base.x, edits) == Ok(K.ComposeText(Some(base), edits, sources).value.value.x)
  {}

  /** The text composed from two modifications of one node is that of their merged edits. */
  lemma {:induction false} ComposedText(w: Model.Shell, op: Graphs.Op, op': Graphs.Op)
    requires op.Modify? && op'.Modify? && w.text.Some? && K.Composed(w, [op, op']).Ok?
    ensures K.Composed(w, [op, op']).value.text.Some?
    ensures Apply(w.text.value.x, Merged(op.edits, op'.edits)) == Ok(K.Composed(w, [op, op']).value.text.value.x)
  {
    ComposedParts(w, [op, op']);
    GatherTwo(w, op, op');
    TextIs(w.text.value, Merged(op.edits, op'.edits), K.Gather(w, [op, op']).value.sources);
  }
}
