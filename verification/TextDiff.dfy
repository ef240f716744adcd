/** Text edits in code-point coordinates of the old text, and the differ that produces them. */
module TextDiff {
  import opened Options
  import M = Myers

  datatype Level = Sen | Word | Char

  datatype Edit = Edit(at: nat, del: nat, ins: string)

  datatype TextError = Overlapping | OutOfBounds

  datatype Applied = Ok(text: string) | Err(error: TextError)

  // ----- applying edits ----------------------------------------------------

  /** What the cursor loop holds after an edit list: the text so far, the consumed length
      of the base and the last edit position. */
  datatype Progress = Progress(out: string, cursor: nat, previous: Option<nat>) | Failed(error: TextError)

  function Step(base: string, p: Progress, e: Edit): (r: Progress)
    ensures p.Progress? && p.cursor <= |base| && r.Progress? ==> r.cursor <= |base|
  {
    if p.Failed? then p
    else if e.at < p.cursor || p.previous == Some(e.at) then Failed(Overlapping)
    else if e.at + e.del > |base| then Failed(OutOfBounds)
    else Progress(p.out + base[p.cursor..e.at] + e.ins, e.at + e.del, Some(e.at))
  }

  function Run(base: string, edits: seq<Edit>): (r: Progress)
    ensures r.Progress? ==> r.cursor <= |base|
  {
    if edits == [] then Progress("", 0, None)
    else Step(base, Run(base, edits[..|edits| - 1]), edits[|edits| - 1])
  }

  /** The meaning of an edit list. */
  function Apply(base: string, edits: seq<Edit>): Applied {
    match Run(base, edits)
    case Progress(out, cursor, _) => Ok(out + base[cursor..])
    case Failed(e) => Err(e)
  }

  lemma {:induction false} RunAppend(base: string, edits: seq<Edit>, e: Edit)
    ensures Run(base, edits + [e]) == Step(base, Run(base, edits), e)
  {
    assert (edits + [e])[..|edits|] == edits;
  }

  lemma {:induction false} RunFails(base: string, edits: seq<Edit>, i: nat)
    requires i <= |edits| && Run(base, edits[..i]).Failed?
    ensures Run(base, edits) == Run(base, edits[..i])
    decreases |edits| - i
  {
    if i == |edits| {
      assert edits[..i] == edits;
    } else {
      assert edits[..i + 1] == edits[..i] + [edits[i]];
      RunAppend(base, edits[..i], edits[i]);
      RunFails(base, edits, i + 1);
    }
  }

  /** The cursor loop computes `Apply`, returning at the first bad edit. */
  method ApplyEdits(base: string, edits: seq<Edit>) returns (r: Applied)
    ensures r == Apply(base, edits)
  {
    var out := "";
    var cursor: nat := 0;
    var previous: Option<nat> := None;
    for i := 0 to |edits|
      invariant cursor <= |base|
      invariant Run(base, edits[..i]) == Progress(out, cursor, previous)
    {
      var e := edits[i];
      assert edits[..i + 1] == edits[..i] + [e];
      RunAppend(base, edits[..i], e);
      if e.at < cursor || previous == Some(e.at) {
        RunFails(base, edits, i + 1);
        return Err(Overlapping);
      }
      if e.at + e.del > |base| {
        RunFails(base, edits, i + 1);
        return Err(OutOfBounds);
      }
      out := out + base[cursor..e.at] + e.ins;
      cursor := e.at + e.del;
      previous := Some(e.at);
    }
    assert edits[..|edits|] == edits;
    return Ok(out + base[cursor..]);
  }

  /** Edits that apply: ordered, disjoint, at different positions, inside the text. */
  predicate Valid(edits: seq<Edit>, len: nat) {
    && (forall i :: 0 <= i < |edits| ==> edits[i].at + edits[i].del <= len)
    && (forall i, j :: 0 <= i < j < |edits| ==> edits[i].at < edits[j].at && edits[i].at + edits[i].del <= edits[j].at)
  }

  /** A further edit is valid behind the last one. */
  predicate Follows(edits: seq<Edit>, e: Edit) {
    edits == [] || (edits[|edits| - 1].at < e.at && edits[|edits| - 1].at + edits[|edits| - 1].del <= e.at)
  }

  lemma {:induction false} ValidSnoc(front: seq<Edit>, e: Edit, len: nat)
    ensures Valid(front + [e], len) <==> Valid(front, len) && e.at + e.del <= len && Follows(front, e)
  {
    var edits := front + [e];
    if Valid(edits, len) {
      assert edits[|front|] == e;
      forall i | 0 <= i < |front| ensures edits[i] == front[i] {}
    }
    if Valid(front, len) && e.at + e.del <= len && Follows(front, e) {
      forall i | 0 <= i < |front| ensures front[i].at < e.at && front[i].at + front[i].del <= e.at {
        if i < |front| - 1 { assert front[i].at + front[i].del <= front[|front| - 1].at; }
      }
    }
  }

  /** The cursor stands behind the last edit. */
  predicate Behind(s: Progress, edits: seq<Edit>) {
    s.Progress? &&
    if edits == [] then s.cursor == 0 && s.previous.None?
    else s.cursor == edits[|edits| - 1].at + edits[|edits| - 1].del && s.previous == Some(edits[|edits| - 1].at)
  }

  lemma {:induction false} StepIff(base: string, p: Progress, front: seq<Edit>, e: Edit)
    requires p.Progress? ==> Behind(p, front) && p.cursor <= |base|
    ensures Step(base, p, e).Progress? <==> p.Progress? && e.at + e.del <= |base| && Follows(front, e)
    ensures Step(base, p, e).Progress? ==> Behind(Step(base, p, e), front + [e])
  {}

  lemma {:induction false} RunNextIff(base: string, front: seq<Edit>, e: Edit)
    requires Run(base, front).Progress? <==> Valid(front, |base|)
    requires Run(base, front).Progress? ==> Behind(Run(base, front), front)
    ensures Run(base, front + [e]).Progress? <==> Valid(front + [e], |base|)
    ensures Run(base, front + [e]).Progress? ==> Behind(Run(base, front + [e]), front + [e])
  {
    RunAppend(base, front, e);
    ValidSnoc(front, e, |base|);
    StepIff(base, Run(base, front), front, e);
  }

  lemma {:induction false} RunIffValid(base: string, edits: seq<Edit>)
    ensures Run(base, edits).Progress? <==> Valid(edits, |base|)
    ensures Run(base, edits).Progress? ==> Behind(Run(base, edits), edits)
  {
    if edits != [] {
      var front, e := edits[..|edits| - 1], edits[|edits| - 1];
      assert edits == front + [e];
      RunIffValid(base, front);
      RunNextIff(base, front, e);
    }
  }

  /** `Apply` accepts exactly the valid lists. */
  lemma {:induction false} AppliesIffValid(base: string, edits: seq<Edit>)
    ensures Apply(base, edits).Ok? <==> Valid(edits, |base|)
    ensures Apply(base, edits).Ok? && edits != [] ==>
              var e := edits[|edits| - 1];
              Run(base, edits).cursor == e.at + e.del && Run(base, edits).previous == Some(e.at)
  {
    RunIffValid(base, edits);
  }

  // ----- what edits add ----------------------------------------------------

  function Gain(e: Edit): int {
    |e.ins| - e.del
  }

  /** What the edits before p add to the text, less what they delete. */
  function Before(edits: seq<Edit>, p: nat): int {
    if edits == [] then 0 else (if edits[0].at < p then Gain(edits[0]) else 0) + Before(edits[1..], p)
  }

  lemma {:induction false} BeforeSnoc(edits: seq<Edit>, e: Edit, p: nat)
    ensures Before(edits + [e], p) == Before(edits, p) + if e.at < p then Gain(e) else 0
  {
    if edits == [] {
      assert [] + [e] == [e] && [e][1..] == [];
    } else {
      assert (edits + [e])[1..] == edits[1..] + [e];
      BeforeSnoc(edits[1..], e, p);
    }
  }

  lemma {:induction false} AllBefore(edits: seq<Edit>, p: nat, q: nat)
    requires (forall e :: e in edits ==> e.at < p) && p <= q
    ensures Before(edits, p) == Before(edits, q)
  {
    if edits != [] {
      assert edits[0] in edits && forall e :: e in edits[1..] ==> e in edits;
      AllBefore(edits[1..], p, q);
    }
  }

  // ----- units -------------------------------------------------------------

  /** Unicode White_Space, as `char::is_whitespace` has it. */
  predicate IsWhitespace(c: char) {
    var u := c as int;
    9 <= u <= 13 || u == 32 || u == 0x85 || u == 0xA0 || u == 0x1680 || 0x2000 <= u <= 0x200A ||
    u == 0x2028 || u == 0x2029 || u == 0x202F || u == 0x205F || u == 0x3000
  }

  /** Neighbouring characters that share a word-level unit. */
  predicate Joins(c: char, d: char) {
    c != '\n' && d != '\n' && IsWhitespace(c) == IsWhitespace(d)
  }

  predicate Together(chars: string, level: Level, i: int)
    requires 0 < i < |chars|
  {
    level != Char && Joins(chars[i - 1], chars[i])
  }

  predicate Adjoins(us: seq<(nat, nat)>, i: int) {
    0 < i < |us| && us[i - 1].1 == us[i].0
  }

  /** Non-empty intervals that follow one another and cover [0, len). */
  predicate Tiles(us: seq<(nat, nat)>, len: nat) {
    && (forall i :: 0 <= i < |us| ==> us[i].0 < us[i].1 <= len)
    && (forall i :: 0 < i < |us| ==> Adjoins(us, i))
    && (if us == [] then len == 0 else us[0].0 == 0 && us[|us| - 1].1 == len)
  }

  /** The tiling is cut exactly where neighbours do not belong together. */
  predicate CutAtBoundaries(us: seq<(nat, nat)>, chars: string, level: Level) {
    forall i :: 0 <= i < |us| ==>
      && us[i].1 <= |chars|
      && (forall j :: us[i].0 < j < us[i].1 ==> Together(chars, level, j))
      && (0 < us[i].0 < |chars| ==> !Together(chars, level, us[i].0))
  }

  /** End of the unit that starts at `start`. */
  method UnitEnd(chars: string, start: nat) returns (i: nat)
    requires start < |chars|
    ensures start < i <= |chars|
    ensures forall j :: start < j < i ==> Joins(chars[j - 1], chars[j])
    ensures i < |chars| ==> !Joins(chars[i - 1], chars[i])
  {
    i := start + 1;
    if chars[start] != '\n' {
      while i < |chars| && chars[i] != '\n' && IsWhitespace(chars[i]) == IsWhitespace(chars[start])
        invariant start < i <= |chars|
        invariant Joins(chars[start], chars[i - 1])
        invariant forall j :: start < j < i ==> Joins(chars[j - 1], chars[j])
      {
        i := i + 1;
      }
    }
  }

  lemma {:induction false} AddUnit(us: seq<(nat, nat)>, chars: string, level: Level, start: nat, end: nat)
    requires Tiles(us, start) && CutAtBoundaries(us, chars, level)
    requires start < end <= |chars|
    requires forall j :: start < j < end ==> Together(chars, level, j)
    requires 0 < start ==> !Together(chars, level, start)
    ensures Tiles(us + [(start, end)], end) && CutAtBoundaries(us + [(start, end)], chars, level)
  {
    var us' := us + [(start, end)];
    forall i | 0 <= i < |us'| ensures us'[i].0 < us'[i].1 <= end { if i < |us| { assert us'[i] == us[i]; } }
    forall i | 0 < i < |us'| ensures Adjoins(us', i) { if i < |us| { assert Adjoins(us, i); } }
  }

  method Units(chars: string, level: Level) returns (us: seq<(nat, nat)>)
    ensures Tiles(us, |chars|)
    ensures CutAtBoundaries(us, chars, level)
  {
    if level == Char {
      return seq(|chars|, i requires 0 <= i => (i, i + 1));
    }
    us := [];
    var i := 0;
    while i < |chars|
      invariant i <= |chars|
      invariant Tiles(us, i)
      invariant CutAtBoundaries(us, chars, level)
      invariant 0 < i < |chars| ==> !Together(chars, level, i)
    {
      var end := UnitEnd(chars, i);
      AddUnit(us, chars, level, i, end);
      us := us + [(i, end)];
      i := end;
    }
  }

  // ----- differencing ------------------------------------------------------

  function Begin(us: seq<(nat, nat)>, i: nat, len: nat): nat {
    if i < |us| then us[i].0 else len
  }

  function End(us: seq<(nat, nat)>, i: nat, len: nat): nat {
    if i < |us| then us[i].1 else len
  }

  predicate UnitEq(a: string, b: string, ua: seq<(nat, nat)>, ub: seq<(nat, nat)>, i: nat, j: nat) {
    i < |ua| && j < |ub| && ua[i].0 <= ua[i].1 <= |a| && ub[j].0 <= ub[j].1 <= |b| &&
    a[ua[i].0..ua[i].1] == b[ub[j].0..ub[j].1]
  }

  lemma {:induction false} TilesMonotone(us: seq<(nat, nat)>, len: nat, i: nat, j: nat)
    requires Tiles(us, len) && i < j
    ensures i < |us| ==> End(us, i, len) <= Begin(us, j, len)
    decreases j - i
  {
    if i + 1 < |us| { assert Adjoins(us, i + 1); }
    if i < |us| && i + 1 < j { TilesMonotone(us, len, i + 1, j); }
  }

  /** The edits so far rewrite a[..pa] into b[..pb] and leave room for an edit at pa. */
  ghost predicate Built(a: string, b: string, edits: seq<Edit>, pa: nat, pb: nat) {
    pa <= |a| && pb <= |b| &&
    var run := Run(a, edits);
    run.Progress? && run.cursor <= pa && run.out + a[run.cursor..pa] == b[..pb]
  }

  ghost predicate RoomAt(a: string, edits: seq<Edit>, pa: nat) {
    var run := Run(a, edits);
    run.Progress? && (run.previous.Some? ==> run.previous.value < pa)
  }

  lemma {:induction false} BuiltEdit(a: string, b: string, edits: seq<Edit>, pa: nat, pb: nat, startA: nat, startB: nat)
    requires Built(a, b, edits, pa, pb) && RoomAt(a, edits, pa)
    requires pa <= startA <= |a| && pb <= startB <= |b|
    ensures var e := Edit(pa, startA - pa, b[pb..startB]);
            Built(a, b, edits + [e], startA, startB) && Run(a, edits + [e]).previous == Some(pa)
  {
    RunAppend(a, edits, Edit(pa, startA - pa, b[pb..startB]));
    assert b[..pb] + b[pb..startB] == b[..startB];
  }

  lemma {:induction false} BuiltMatch(a: string, b: string, edits: seq<Edit>, startA: nat, startB: nat, pa: nat,
      pb: nat)
    requires Built(a, b, edits, startA, startB)
    requires startA <= pa <= |a| && startB <= pb <= |b| && a[startA..pa] == b[startB..pb]
    ensures Built(a, b, edits, pa, pb)
  {
    var run := Run(a, edits);
    assert a[run.cursor..pa] == a[run.cursor..startA] + a[startA..pa];
    assert b[..pb] == b[..startB] + b[startB..pb];
  }

  /** Every edit deletes or inserts something. */
  predicate NoneEmpty(edits: seq<Edit>) {
    forall e :: e in edits ==> e.del > 0 || e.ins != ""
  }

  lemma {:induction false} BuiltAll(a: string, b: string, edits: seq<Edit>)
    requires Built(a, b, edits, |a|, |b|)
    ensures Apply(a, edits) == Ok(b) && Valid(edits, |a|)
  {
    assert b[..|b|] == b && a[..|a|] == a;
    AppliesIffValid(a, edits);
  }

  /** The edit for one gap between matches, if there is anything to change. */
  function GapEdits(b: string, pa: nat, pb: nat, startA: nat, startB: nat): seq<Edit>
    requires pa <= startA && pb <= startB <= |b|
  {
    if startA > pa || startB > pb then [Edit(pa, startA - pa, b[pb..startB])] else []
  }

  method Gap(a: string, b: string, edits: seq<Edit>, pa: nat, pb: nat, startA: nat, startB: nat)
    returns (r: seq<Edit>)
    requires Built(a, b, edits, pa, pb) && RoomAt(a, edits, pa)
    requires pa <= startA <= |a| && pb <= startB <= |b|
    requires NoneEmpty(edits)
    ensures Built(a, b, r, startA, startB) && RoomAt(a, r, startA + 1) && NoneEmpty(r)
    ensures r == edits + GapEdits(b, pa, pb, startA, startB)
  {
    r := edits;
    if startA > pa || startB > pb {
      BuiltEdit(a, b, edits, pa, pb, startA, startB);
      r := edits + [Edit(pa, startA - pa, b[pb..startB])];
    }
  }

  /** One match, or the sentinel after the last one: it lies behind the previous match and
      covers equal text on both sides. */
  lemma {:induction false} MatchFacts(a: string, b: string, ua: seq<(nat, nat)>, ub: seq<(nat, nat)>,
      pairs: seq<(nat, nat)>, n: nat)
    requires Tiles(ua, |a|) && Tiles(ub, |b|) && n <= |pairs|
    requires M.CommonSubsequence(pairs, |ua|, |ub|, (i: nat, j: nat) => UnitEq(a, b, ua, ub, i, j))
    ensures var all: seq<(nat, nat)> := pairs + [(|ua|, |ub|)];
            var (ai, bi) := all[n];
            && (n > 0 ==>
              End(ua, all[n - 1].0, |a|) <= Begin(ua, ai, |a|) && End(ub, all[n - 1].1, |b|) <= Begin(ub, bi, |b|))
            && Begin(ua, ai, |a|) <= End(ua, ai, |a|) <= |a| && Begin(ub, bi, |b|) <= End(ub, bi, |b|) <= |b|
            && a[Begin(ua, ai, |a|)..End(ua, ai, |a|)] == b[Begin(ub, bi, |b|)..End(ub, bi, |b|)]
            && (n < |pairs| ==> Begin(ua, ai, |a|) < End(ua, ai, |a|))
  {
    var all: seq<(nat, nat)> := pairs + [(|ua|, |ub|)];
    if n > 0 {
      TilesMonotone(ua, |a|, all[n - 1].0, all[n].0);
      TilesMonotone(ub, |b|, all[n - 1].1, all[n].1);
    }
    if n < |pairs| {
      assert UnitEq(a, b, ua, ub, pairs[n].0, pairs[n].1);
    }
  }

  /** The units match as `pairs` says. */
  ghost predicate Matched(a: string, b: string, ua: seq<(nat, nat)>, ub: seq<(nat, nat)>, pairs: seq<(nat, nat)>) {
    && Tiles(ua, |a|) && Tiles(ub, |b|)
    && M.CommonSubsequence(pairs, |ua|, |ub|, (i: nat, j: nat) => UnitEq(a, b, ua, ub, i, j))
  }

  /** Edits cover the gaps before the first n matches, the sentinel included. */
  ghost predicate Covered(a: string, b: string, ua: seq<(nat, nat)>, ub: seq<(nat, nat)>, pairs: seq<(nat, nat)>,
                          n: nat, edits: seq<Edit>, pa: nat, pb: nat)
  {
    var all: seq<(nat, nat)> := pairs + [(|ua|, |ub|)];
    && n <= |all|
    && (if n == 0 then pa == 0 && pb == 0
        else pa == End(ua, all[n - 1].0, |a|) && pb == End(ub, all[n - 1].1, |b|))
    && Built(a, b, edits, pa, pb) && NoneEmpty(edits) && (n < |all| ==> RoomAt(a, edits, pa))
  }

  // ----- matched units stay ------------------------------------------------

  /** No edit reaches into the text between two places. */
  predicate Untouched(edits: seq<Edit>, from: nat, to: nat) {
    forall e :: e in edits ==> e.at + e.del <= from || to <= e.at
  }

  /** A unit of the old text stays whole and becomes the unit v of the new text. */
  predicate Lands(edits: seq<Edit>, u: (nat, nat), v: (nat, nat)) {
    Untouched(edits, u.0, u.1) && v.0 == u.0 + Before(edits, u.0 + 1)
  }

  predicate MatchLands(edits: seq<Edit>, ua: seq<(nat, nat)>, ub: seq<(nat, nat)>, pair: (nat, nat), pa: nat) {
    && pair.0 < |ua| && pair.1 < |ub| && ua[pair.0].0 < ua[pair.0].1 <= pa
    && Lands(edits, ua[pair.0], ub[pair.1])
  }

  predicate LandUpTo(edits: seq<Edit>, ua: seq<(nat, nat)>, ub: seq<(nat, nat)>, pairs: seq<(nat, nat)>,
                     n: nat, pa: nat)
  {
    forall k :: 0 <= k < n && k < |pairs| ==> MatchLands(edits, ua, ub, pairs[k], pa)
  }

  /** The first n matches stay, and the texts before pa and pb have grown apart as the edits say. */
  predicate Landed(edits: seq<Edit>, ua: seq<(nat, nat)>, ub: seq<(nat, nat)>, pairs: seq<(nat, nat)>,
                   n: nat, pa: nat, pb: nat)
  {
    && (forall e :: e in edits ==> e.at + e.del <= pa)
    && pb == pa + Before(edits, pa + 1)
    && LandUpTo(edits, ua, ub, pairs, n, pa)
  }

  lemma {:induction false} GapShifts(edits: seq<Edit>, b: string, pa: nat, pb: nat, startA: nat, startB: nat)
    requires pa <= startA && pb <= startB <= |b|
    requires (forall e :: e in edits ==> e.at + e.del <= pa) && pb == pa + Before(edits, pa + 1)
    ensures var r := edits + GapEdits(b, pa, pb, startA, startB);
      (forall e :: e in r ==> e.at + e.del <= startA) && startB == startA + Before(r, startA + 1)
  {
    var r := edits + GapEdits(b, pa, pb, startA, startB);
    AllBefore(edits, pa + 1, startA + 1);
    if startA > pa || startB > pb {
      BeforeSnoc(edits, Edit(pa, startA - pa, b[pb..startB]), startA + 1);
    } else {
      assert r == edits;
    }
  }

  lemma {:induction false} GapBehind(edits: seq<Edit>, b: string, pa: nat, pb: nat, startA: nat, startB: nat,
      ua: seq<(nat, nat)>, ub: seq<(nat, nat)>, pair: (nat, nat), end: nat)
    requires pa <= startA <= end && pb <= startB <= |b| && MatchLands(edits, ua, ub, pair, pa)
    ensures MatchLands(edits + GapEdits(b, pa, pb, startA, startB), ua, ub, pair, end)
  {
    var r := edits + GapEdits(b, pa, pb, startA, startB);
    if startA > pa || startB > pb {
      BeforeSnoc(edits, Edit(pa, startA - pa, b[pb..startB]), ua[pair.0].0 + 1);
    } else {
      assert r == edits;
    }
  }

  lemma {:induction false} MatchStays(edits: seq<Edit>, ua: seq<(nat, nat)>, ub: seq<(nat, nat)>, pair: (nat, nat),
      pa: nat, pb: nat)
    requires pair.0 < |ua| && pair.1 < |ub| && ua[pair.0].0 < ua[pair.0].1 <= pa
    requires (forall e :: e in edits ==> e.at + e.del <= ua[pair.0].0)
    requires ub[pair.1].0 == ua[pair.0].0 + Before(edits, ua[pair.0].0 + 1)
    requires pb + ua[pair.0].0 == pa + ub[pair.1].0
    ensures MatchLands(edits, ua, ub, pair, pa) && pb == pa + Before(edits, pa + 1)
  {
    AllBefore(edits, ua[pair.0].0 + 1, pa + 1);
  }

  /** Where the n-th match begins and ends on both sides. */
  predicate Between(ua: seq<(nat, nat)>, ub: seq<(nat, nat)>, pairs: seq<(nat, nat)>, n: nat,
                    startA: nat, startB: nat, endA: nat, endB: nat)
  {
    && startA <= endA && endB + startA == endA + startB
    && (n < |pairs| ==>
          && pairs[n].0 < |ua| && pairs[n].1 < |ub| && startA < endA
          && ua[pairs[n].0] == (startA, endA) && ub[pairs[n].1] == (startB, endB))
  }

  lemma {:induction false} MatchBetween(a: string, b: string, ua: seq<(nat, nat)>, ub: seq<(nat, nat)>,
      pairs: seq<(nat, nat)>, n: nat)
    requires Matched(a, b, ua, ub, pairs) && n <= |pairs|
    ensures var all: seq<(nat, nat)> := pairs + [(|ua|, |ub|)];
      var (ai, bi) := all[n];
      Between(ua, ub, pairs, n, Begin(ua, ai, |a|), Begin(ub, bi, |b|), End(ua, ai, |a|), End(ub, bi, |b|))
  {
    var all: seq<(nat, nat)> := pairs + [(|ua|, |ub|)];
    var (ai, bi) := all[n];
    MatchFacts(a, b, ua, ub, pairs, n);
    assert |a[Begin(ua, ai, |a|)..End(ua, ai, |a|)]| == |b[Begin(ub, bi, |b|)..End(ub, bi, |b|)]|;
  }

  /** Emitting one gap and stepping over the match behind it keeps all matches in place. */
  lemma {:induction false} LandedNext(b: string, ua: seq<(nat, nat)>, ub: seq<(nat, nat)>, pairs: seq<(nat, nat)>,
      n: nat, edits: seq<Edit>, pa: nat, pb: nat, startA: nat, startB: nat, endA: nat, endB: nat)
    requires Landed(edits, ua, ub, pairs, n, pa, pb) && pa <= startA && pb <= startB <= |b|
    requires Between(ua, ub, pairs, n, startA, startB, endA, endB) && (n < |pairs| || startA == endA)
    ensures Landed(edits + GapEdits(b, pa, pb, startA, startB), ua, ub, pairs, n + 1, endA, endB)
  {
    var r := edits + GapEdits(b, pa, pb, startA, startB);
    GapShifts(edits, b, pa, pb, startA, startB);
    forall k | 0 <= k < n && k < |pairs| ensures MatchLands(r, ua, ub, pairs[k], endA) {
      GapBehind(edits, b, pa, pb, startA, startB, ua, ub, pairs[k], endA);
    }
    if n < |pairs| { MatchStays(r, ua, ub, pairs[n], endA, endB); }
  }

  /** What the loop has done for the first n matches, the sentinel included. */
  ghost predicate Steps(a: string, b: string, ua: seq<(nat, nat)>, ub: seq<(nat, nat)>, pairs: seq<(nat, nat)>,
                        n: nat, edits: seq<Edit>, pa: nat, pb: nat)
  {
    Covered(a, b, ua, ub, pairs, n, edits, pa, pb) && Landed(edits, ua, ub, pairs, n, pa, pb)
  }

  method NextMatch(a: string, b: string, ua: seq<(nat, nat)>, ub: seq<(nat, nat)>, pairs: seq<(nat, nat)>,
                   n: nat, edits: seq<Edit>, pa: nat, pb: nat) returns (edits': seq<Edit>, pa': nat, pb': nat)
    requires Matched(a, b, ua, ub, pairs) && n <= |pairs| && Steps(a, b, ua, ub, pairs, n, edits, pa, pb)
    ensures Steps(a, b, ua, ub, pairs, n + 1, edits', pa', pb')
  {
    var all: seq<(nat, nat)> := pairs + [(|ua|, |ub|)];
    var (ai, bi) := all[n];
    MatchFacts(a, b, ua, ub, pairs, n);
    var startA := Begin(ua, ai, |a|);
    var startB := Begin(ub, bi, |b|);
    edits' := Gap(a, b, edits, pa, pb, startA, startB);
    pa' := End(ua, ai, |a|);
    pb' := End(ub, bi, |b|);
    BuiltMatch(a, b, edits', startA, startB, pa', pb');
    MatchBetween(a, b, ua, ub, pairs, n);
    LandedNext(b, ua, ub, pairs, n, edits, pa, pb, startA, startB, pa', pb');
  }

  lemma {:induction false} AllCovered(a: string, b: string, ua: seq<(nat, nat)>, ub: seq<(nat, nat)>,
      pairs: seq<(nat, nat)>,
                   edits: seq<Edit>, pa: nat, pb: nat)
    requires Covered(a, b, ua, ub, pairs, |pairs| + 1, edits, pa, pb)
    ensures Built(a, b, edits, |a|, |b|) && pa == |a|
  {
    var all: seq<(nat, nat)> := pairs + [(|ua|, |ub|)];
    assert all[|pairs|] == (|ua|, |ub|);
  }

  lemma {:induction false} LandedAll(edits: seq<Edit>, ua: seq<(nat, nat)>, ub: seq<(nat, nat)>,
      pairs: seq<(nat, nat)>, pa: nat, pb: nat)
    requires Landed(edits, ua, ub, pairs, |pairs| + 1, pa, pb)
    ensures LandUpTo(edits, ua, ub, pairs, |pairs|, pa)
  {}

  lemma {:induction false} NoSteps(a: string, b: string, ua: seq<(nat, nat)>, ub: seq<(nat, nat)>,
      pairs: seq<(nat, nat)>)
    ensures Steps(a, b, ua, ub, pairs, 0, [], 0, 0)
  {}

  lemma {:induction false} AllSteps(a: string, b: string, ua: seq<(nat, nat)>, ub: seq<(nat, nat)>,
      pairs: seq<(nat, nat)>, edits: seq<Edit>, pa: nat, pb: nat)
    requires Steps(a, b, ua, ub, pairs, |pairs| + 1, edits, pa, pb)
    ensures Apply(a, edits) == Ok(b) && Valid(edits, |a|) && NoneEmpty(edits)
    ensures LandUpTo(edits, ua, ub, pairs, |pairs|, |a|)
  {
    AllCovered(a, b, ua, ub, pairs, edits, pa, pb);
    BuiltAll(a, b, edits);
    LandedAll(edits, ua, ub, pairs, pa, pb);
  }

  /** Edits between matched units turn the old text into the new one. */
  method EditsFromPairs(a: string, b: string, ua: seq<(nat, nat)>, ub: seq<(nat, nat)>, pairs: seq<(nat, nat)>)
    returns (edits: seq<Edit>)
    requires Matched(a, b, ua, ub, pairs)
    ensures Apply(a, edits) == Ok(b)
    ensures Valid(edits, |a|) && NoneEmpty(edits)
    ensures LandUpTo(edits, ua, ub, pairs, |pairs|, |a|)
  {
    var pa, pb := 0, 0;
    edits := [];
    NoSteps(a, b, ua, ub, pairs);
    for n := 0 to |pairs| + 1
      invariant Steps(a, b, ua, ub, pairs, n, edits, pa, pb)
    {
      edits, pa, pb := NextMatch(a, b, ua, ub, pairs, n, edits, pa, pb);
    }
    AllSteps(a, b, ua, ub, pairs, edits, pa, pb);
  }

  // ----- the shortest edits ------------------------------------------------

  /** The units of a text. */
  ghost predicate AreUnits(us: seq<(nat, nat)>, chars: string, level: Level) {
    Tiles(us, |chars|) && CutAtBoundaries(us, chars, level)
  }

  /** The edits leave a longest common subsequence of units where it is. */
  ghost predicate KeepsLongest(a: string, b: string, ua: seq<(nat, nat)>, ub: seq<(nat, nat)>,
                               pairs: seq<(nat, nat)>, edits: seq<Edit>)
  {
    && M.IsLongest(pairs, |ua|, |ub|, (i: nat, j: nat) => UnitEq(a, b, ua, ub, i, j))
    && LandUpTo(edits, ua, ub, pairs, |pairs|, |a|)
  }

  ghost predicate FollowsLongest(a: string, b: string, level: Level, edits: seq<Edit>) {
    exists ua, ub, pairs :: AreUnits(ua, a, level) && AreUnits(ub, b, level) && KeepsLongest(a, b, ua, ub, pairs, edits)
  }

  /** The budget covers every search in texts of these lengths. */
  predicate Affords(a: string, b: string, maxNd: nat) {
    |a| + |b| <= maxNd / 8 && M.Enough(|a|, |b|) <= maxNd
  }

  lemma {:induction false} TilesFit(us: seq<(nat, nat)>, len: nat, i: nat)
    requires Tiles(us, len) && i < |us|
    ensures i <= us[i].0 && |us| <= len
  {
    Begins(us, len, i);
    Begins(us, len, |us| - 1);
  }

  lemma {:induction false} Begins(us: seq<(nat, nat)>, len: nat, i: nat)
    requires Tiles(us, len) && i < |us|
    ensures i <= us[i].0
  {
    if i > 0 {
      Begins(us, len, i - 1);
      assert Adjoins(us, i);
    }
  }

  lemma {:induction false} SearchAffords(a: string, b: string, ua: seq<(nat, nat)>, ub: seq<(nat, nat)>, maxNd: nat)
    requires Tiles(ua, |a|) && Tiles(ub, |b|) && Affords(a, b, maxNd)
    ensures M.Enough(|ua|, |ub|) <= maxNd
  {
    if ua != [] { TilesFit(ua, |a|, 0); }
    if ub != [] { TilesFit(ub, |b|, 0); }
    M.EnoughGrows(|ua|, |ub|, |a|, |b|);
  }

  /** Edits around a longest common subsequence of units, or none when the budget runs out. */
  method DiffUnits(base: string, new_: string, level: Level, maxNd: nat) returns (r: Option<seq<Edit>>)
    ensures r.Some? ==> Apply(base, r.value) == Ok(new_) && Valid(r.value, |base|) && NoneEmpty(r.value)
    ensures r.Some? ==> FollowsLongest(base, new_, level, r.value)
    ensures r.None? ==> !Affords(base, new_, maxNd)
  {
    var ua := Units(base, level);
    var ub := Units(new_, level);
    var found := M.Search(|ua|, |ub|, (i: nat, j: nat) => UnitEq(base, new_, ua, ub, i, j), maxNd);
    if found.None? {
      if Affords(base, new_, maxNd) { SearchAffords(base, new_, ua, ub, maxNd); }
      return None;
    }
    var edits := EditsFromPairs(base, new_, ua, ub, found.value);
    assert KeepsLongest(base, new_, ua, ub, found.value, edits);
    r := Some(edits);
  }

  /** Every level and every budget yields edits that turn `base` into `new`: a failed or
      refused search falls back to replacing the whole text, and one that the budget
      affords leaves as many units in place as possible. */
  method DiffText(base: string, new_: string, level: Level, maxNd: nat) returns (edits: seq<Edit>)
    ensures Apply(base, edits) == Ok(new_)
    ensures Valid(edits, |base|)
    ensures base == new_ <==> edits == []
    ensures NoneEmpty(edits)
    ensures base != new_ && level != Sen && Affords(base, new_, maxNd) ==> FollowsLongest(base, new_, level, edits)
  {
    assert Apply(base, []) == Ok(base[0..]) && base[0..] == base;
    if base == new_ {
      return [];
    }
    var full := [Edit(0, |base|, new_)];
    RunAppend(base, [], full[0]);
    assert full == [] + [full[0]];
    if level == Sen || |base| + |new_| > maxNd / 8 {
      return full;
    }
    var found := DiffUnits(base, new_, level, maxNd);
    edits := if found.None? then full else found.value;
  }
}
