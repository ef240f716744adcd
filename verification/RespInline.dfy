/** Inline commands: what the words of a line are, and lines that parse back to given words. */
module RespInline {
  import opened ByteStrings
  import opened Options
  import opened Resp
  import E = RespEncode

  /** Tab, line feed, form feed, carriage return and space. */
  const WHITE: set<nat> := {9, 10, 12, 13, 32}

  predicate IsWord(w: Bytes) {
    w != [] && forall i :: 0 <= i < |w| ==> w[i] !in WHITE
  }

  /** White bytes within a line. */
  predicate IsGap(g: Bytes) {
    forall i :: 0 <= i < |g| ==> g[i] in WHITE && g[i] != LF
  }

  // ----- words of any line -------------------------------------------------

  function Solid(line: Bytes): Bytes {
    if line == [] then []
    else
      var front, last := Solid(line[..|line| - 1]), line[|line| - 1];
      if last in WHITE then front else front + [last]
  }

  lemma {:induction false} FlattenSnoc(words: seq<Bytes>, w: Bytes)
    ensures Flatten(words + [w]) == Flatten(words) + w
  {
    if words == [] {
      assert [w][1..] == [] && w + [] == w;
    } else {
      assert (words + [w])[1..] == words[1..] + [w];
      FlattenSnoc(words[1..], w);
    }
  }

  lemma {:induction false} WordsHold(line: Bytes)
    ensures var (words, open) := Words(line);
      && Flatten(words) + open == Solid(line)
      && (forall w :: w in words ==> IsWord(w)) && (open != [] ==> IsWord(open))
  {
    if line != [] {
      var front, b := line[..|line| - 1], line[|line| - 1];
      WordsHold(front);
      var (words, open) := Words(front);
      if b in WHITE { FlattenSnoc(words, open); }
    }
  }

  /** The words of a line are its bytes other than white ones, in order, none of them empty. */
  lemma {:induction false} SplitHolds(line: Bytes)
    ensures Flatten(Split(line)) == Solid(line) && forall w :: w in Split(line) ==> IsWord(w)
  {
    WordsHold(line);
    var (words, open) := Words(line);
    if open != [] { FlattenSnoc(words, open); } else { assert Flatten(words) + [] == Flatten(words); }
  }

  // ----- lines of given words ----------------------------------------------

  /** Words with a gap before, between and behind them. */
  function Spread(gaps: seq<Bytes>, words: seq<Bytes>): Bytes
    requires |gaps| == |words| + 1
  {
    if words == [] then gaps[0]
    else
      var n := |words| - 1;
      Spread(gaps[..n + 1], words[..n]) + words[n] + gaps[n + 1]
  }

  /** Words are words, gaps are white, and two words never touch. */
  predicate Spaced(gaps: seq<Bytes>, words: seq<Bytes>) {
    && |gaps| == |words| + 1
    && (forall i :: 0 <= i < |words| ==> IsWord(words[i]))
    && (forall i :: 0 <= i < |gaps| ==> IsGap(gaps[i]) && (0 < i < |words| ==> gaps[i] != []))
  }

  lemma {:induction false} GapCloses(line: Bytes, gap: Bytes)
    requires IsGap(gap)
    ensures Split(line + gap) == Split(line) && (gap != [] ==> Words(line + gap) == (Split(line), []))
  {
    if gap == [] {
      assert line + gap == line;
    } else {
      var front, b := gap[..|gap| - 1], gap[|gap| - 1];
      assert line + gap == (line + front) + [b] && (line + gap)[..|line + front|] == line + front;
      GapCloses(line, front);
    }
  }

  lemma {:induction false} WordOpens(line: Bytes, w: Bytes, words: seq<Bytes>)
    requires Words(line) == (words, []) && forall i :: 0 <= i < |w| ==> w[i] !in WHITE
    ensures Words(line + w) == (words, w)
  {
    if w == [] {
      assert line + w == line;
    } else {
      var front, b := w[..|w| - 1], w[|w| - 1];
      assert line + w == (line + front) + [b] && (line + w)[..|line + front|] == line + front;
      WordOpens(line, front, words);
      assert w == front + [b];
    }
  }

  lemma {:induction false} SpacedFront(gaps: seq<Bytes>, words: seq<Bytes>)
    requires Spaced(gaps, words) && words != []
    ensures Spaced(gaps[..|words|], words[..|words| - 1])
  {}

  /** Up to a gap that separates, the line has been cut into its words. */
  lemma {:induction false} SpreadWords(gaps: seq<Bytes>, words: seq<Bytes>)
    requires Spaced(gaps, words)
    ensures Split(Spread(gaps, words)) == words
    ensures words == [] || gaps[|words|] != [] ==> Words(Spread(gaps, words)) == (words, [])
    decreases |words|
  {
    if words == [] {
      GapCloses([], gaps[0]);
      assert [] + gaps[0] == gaps[0];
    } else {
      var n := |words| - 1;
      var front := Spread(gaps[..n + 1], words[..n]);
      SpacedFront(gaps, words);
      SpreadWords(gaps[..n + 1], words[..n]);
      WordOpens(front, words[n], words[..n]);
      assert words == words[..n] + [words[n]];
      GapCloses(front + words[n], gaps[n + 1]);
    }
  }

  lemma {:induction false} SpreadOneLine(gaps: seq<Bytes>, words: seq<Bytes>)
    requires Spaced(gaps, words)
    ensures LF !in Spread(gaps, words)
    decreases |words|
  {
    if words != [] {
      SpacedFront(gaps, words);
      SpreadOneLine(gaps[..|words|], words[..|words| - 1]);
    }
  }

  lemma {:induction false} LineParses(line: Bytes, after: Bytes)
    requires LF !in line && (line != [] ==> line[0] != STAR)
    ensures Parse(line + [LF] + after) == Command(|line| + 1, Split(line))
  {
    var data, n := line + [LF] + after, |line|;
    assert data[n] == LF && data[..n] == line && forall i :: 0 <= i < n ==> data[i] == line[i];
    E.FindAfterDigits(data, 0, n);
    if n > 0 && line[n - 1] == CR {
      assert data[..n - 1] == line[..n - 1] && line == line[..n - 1] + [CR];
      GapCloses(line[..n - 1], [CR]);
    }
  }

  /**
   * Words with any white bytes around and between them, ended by a line feed or
   * by carriage return and line feed, parse back to the words.
   */
  lemma {:induction false} InlineParses(gaps: seq<Bytes>, words: seq<Bytes>, after: Bytes)
    requires Spaced(gaps, words) && (Spread(gaps, words) != [] ==> Spread(gaps, words)[0] != STAR)
    ensures Parse(Spread(gaps, words) + [LF] + after) == Command(|Spread(gaps, words)| + 1, words)
  {
    SpreadWords(gaps, words);
    SpreadOneLine(gaps, words);
    LineParses(Spread(gaps, words), after);
  }

  /** Any inline command has the bytes of its line other than white ones, cut into words. */
  lemma {:induction false} InlineWords(data: Bytes)
    requires data != [] && data[0] != STAR && Parse(data).Command?
    ensures var r := Parse(data);
      && data[r.consumed - 1] == LF && LF !in data[..r.consumed - 1]
      && Flatten(r.args) == Solid(data[..r.consumed]) && forall w :: w in r.args ==> IsWord(w)
  {
    var n := Parse(data).consumed - 1;
    FirstLf(data, 0);
    SplitHolds(data[..n]);
    assert data[..n + 1][..n] == data[..n];
    if n > 0 && data[n - 1] == CR {
      SplitHolds(data[..n - 1]);
      assert data[..n][..n - 1] == data[..n - 1];
    }
  }

  lemma {:induction false} FirstLf(data: Bytes, start: nat)
    requires start <= |data|
    ensures FindLf(data, start).Some? ==> forall i :: start <= i < FindLf(data, start).value ==> data[i] != LF
    decreases |data| - start
  {
    if start < |data| && data[start] != LF { FirstLf(data, start + 1); }
  }
}
