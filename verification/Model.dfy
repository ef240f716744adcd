/** Values of the document model: kinds, attributes, formatting runs and text. */
module Model {
  import opened Options

  datatype Kind = Doc | Sec | Par | Sen | List | Li | Tbl | Row | Cell | Code

  predicate IsLeaf(k: Kind) {
    k == Sen || k == Code
  }

  /** JSON values; only scalars are legal attribute values. */
  datatype Value = Null | Bool(b: bool) | Int(i: int) | Float(bits: nat) | Str(s: string) | Nested

  type Attrs = map<string, Value>

  function Get(a: Attrs, k: string): Option<Value> {
    if k in a then Some(a[k]) else None
  }

  predicate ScalarAttrs(a: Attrs) {
    forall k :: k in a ==> a[k] != Nested
  }

  /** Formatting run over code points, half-open. */
  datatype Run = Run(start: nat, end: nat, attrs: Attrs)

  datatype Text = Text(x: string, f: seq<Run>)

  datatype Shell = Shell(kind: Kind, attrs: Attrs, text: Option<Text>)

  /** Non-empty runs in order, without overlap. */
  predicate Ordered(rs: seq<Run>) {
    && (forall i :: 0 <= i < |rs| ==> rs[i].start < rs[i].end)
    && (forall i, j :: 0 <= i < j < |rs| ==> rs[i].end <= rs[j].start)
  }

  /** Ordered, never empty-attributed, and touching runs differ. */
  predicate Canonical(rs: seq<Run>) {
    && Ordered(rs)
    && (forall i :: 0 <= i < |rs| ==> rs[i].attrs != map[])
    && (forall i, j :: 0 <= i < j < |rs| && rs[i].end == rs[j].start ==> rs[i].attrs != rs[j].attrs)
  }

  /** The attributes a run list gives to code point p. */
  function AttrsAt(rs: seq<Run>, p: nat): Attrs {
    if rs == [] then map[]
    else if rs[0].end <= p then AttrsAt(rs[1..], p)
    else if rs[0].start <= p then rs[0].attrs
    else map[]
  }

  /** In an ordered list, the attributes at p are those of the run that covers p. */
  lemma {:induction false} AttrsAtCovered(rs: seq<Run>, p: nat, i: nat)
    requires Ordered(rs) && i < |rs| && rs[i].start <= p < rs[i].end
    ensures AttrsAt(rs, p) == rs[i].attrs
  {
    if i > 0 {
      assert rs[0].end <= rs[i].start;
      AttrsAtCovered(rs[1..], p, i - 1);
    }
  }

  lemma {:induction false} AttrsAtUncovered(rs: seq<Run>, p: nat)
    requires forall i :: 0 <= i < |rs| ==> !(rs[i].start <= p < rs[i].end)
    ensures AttrsAt(rs, p) == map[]
  {
    if rs != [] && rs[0].end <= p {
      AttrsAtUncovered(rs[1..], p);
    }
  }

  /** Nothing before the first run. */
  lemma {:induction false} AttrsAtBefore(rs: seq<Run>, p: nat)
    requires Ordered(rs) && (rs != [] ==> p < rs[0].start)
    ensures AttrsAt(rs, p) == map[]
  {
  }

  /** The run lists do the same to every code point. */
  ghost predicate SameAttrs(r: seq<Run>, s: seq<Run>) {
    forall p: nat :: AttrsAt(r, p) == AttrsAt(s, p)
  }

  lemma {:induction false} SameFirstRun(r: seq<Run>, s: seq<Run>)
    requires Canonical(r) && Canonical(s) && SameAttrs(r, s) && r != [] && s != []
    ensures r[0] == s[0]
  {
    StartShows(r, s);
    StartShows(s, r);
    assert AttrsAt(r, r[0].start) == r[0].attrs && AttrsAt(s, r[0].start) == s[0].attrs;
    EndShows(r, s);
    EndShows(s, r);
  }

  lemma {:induction false} SameTails(r: seq<Run>, s: seq<Run>)
    requires Canonical(r) && Canonical(s) && SameAttrs(r, s) && r != [] && s != [] && r[0] == s[0]
    ensures SameAttrs(r[1..], s[1..])
  {
    forall p: nat ensures AttrsAt(r[1..], p) == AttrsAt(s[1..], p) {
      if p < r[0].end {
        TailSilent(r, p);
        TailSilent(s, p);
      } else {
        assert AttrsAt(r, p) == AttrsAt(s, p);
      }
    }
  }

  /** A canonical run list is determined by what it does to each code point. */
  lemma {:induction false} CanonicalUnique(r: seq<Run>, s: seq<Run>)
    requires Canonical(r) && Canonical(s) && SameAttrs(r, s)
    ensures r == s
    decreases |r|
  {
    NonEmptyShows(r);
    NonEmptyShows(s);
    if r != [] && s != [] {
      SameFirstRun(r, s);
      SameTails(r, s);
      TailCanonical(r);
      TailCanonical(s);
      CanonicalUnique(r[1..], s[1..]);
      assert r == [r[0]] + r[1..] && s == [s[0]] + s[1..];
    }
  }

  lemma {:induction false} NonEmptyShows(r: seq<Run>)
    requires Canonical(r)
    ensures r != [] ==> AttrsAt(r, r[0].start) != AttrsAt([], r[0].start)
  {
  }

  lemma {:induction false} StartShows(r: seq<Run>, s: seq<Run>)
    requires Canonical(r) && Canonical(s) && r != [] && s != []
    ensures r[0].start < s[0].start ==> AttrsAt(r, r[0].start) != AttrsAt(s, r[0].start)
  {
  }

  lemma {:induction false} EndShows(r: seq<Run>, s: seq<Run>)
    requires Canonical(r) && Canonical(s) && r != [] && s != []
    ensures r[0].start == s[0].start && r[0].attrs == s[0].attrs && r[0].end < s[0].end ==>
              AttrsAt(r, r[0].end) != AttrsAt(s, r[0].end)
  {
    assert AttrsAt(r, r[0].end) == AttrsAt(r[1..], r[0].end);
    if |r| > 1 { assert r[1..][0] == r[1]; }
  }

  lemma {:induction false} TailSilent(r: seq<Run>, p: nat)
    requires Ordered(r) && r != [] && p < r[0].end
    ensures AttrsAt(r[1..], p) == map[]
  {
    if |r| > 1 {
      assert r[1..][0] == r[1];
      assert Ordered(r[1..]);
      AttrsAtBefore(r[1..], p);
    }
  }

  lemma {:induction false} TailCanonical(r: seq<Run>)
    requires Canonical(r) && r != []
    ensures Canonical(r[1..])
  {
    assert forall i :: 0 <= i < |r[1..]| ==> r[1..][i] == r[i + 1];
  }
}
