/**
 * Skipping the snapshot a master sends before its command stream. The snapshot
 * comes with a length, or ends with a mark announced in its header; chunks may
 * be cut anywhere.
 *
 * How a length is read from the header is a parameter.
 */
module RdbSkipping {
  import opened ByteStrings
  import opened Options

  /** "EOF:" */
  const EOF_PREFIX: Bytes := [69, 79, 70, 58]

  datatype Error = BadHeader | EmptyMark | BadLength

  datatype State = Header | Bulk(remaining: nat) | Eof(mark: Bytes, carry: Bytes) | Done

  datatype Sink = Sink(state: State, hdr: Bytes)

  /** More bytes are needed, the snapshot ended after `consumed` bytes, or the header is broken. */
  datatype Verdict = More(sink: Sink) | Stop(consumed: nat) | Fail(error: Error)

  type LengthParser = Bytes -> Option<nat>

  // ----- byte by byte ------------------------------------------------------

  /** What a complete header line announces. */
  datatype Announced = Snapshot(state: State) | Refused(error: Error)

  function ReadHeader(line: Bytes, parseLen: LengthParser): Announced {
    if line == [] || line[0] != DOLLAR then Refused(BadHeader)
    else
      var body := line[1..];
      if EOF_PREFIX <= body then
        if body[4..] == [] then Refused(EmptyMark) else Snapshot(Eof(body[4..], []))
      else
        match parseLen(body)
        case None => Refused(BadLength)
        case Some(n) => Snapshot(if n == 0 then Done else Bulk(n))
  }

  predicate EndsLine(hdr: Bytes) {
    |hdr| >= 2 && hdr[|hdr| - 2] == CR && hdr[|hdr| - 1] == LF
  }

  function LastBytes(s: Bytes, n: nat): Bytes {
    if |s| <= n then s else s[|s| - n..]
  }

  /** Bytes to retain so that a mark split across chunks is still seen. */
  function Keep(mark: Bytes): nat {
    if mark == [] then 0 else |mark| - 1
  }

  datatype Stepped = Next(sink: Sink) | Bad(error: Error)

  function EndLine(line: Bytes, parseLen: LengthParser): Stepped {
    match ReadHeader(line, parseLen)
    case Refused(e) => Bad(e)
    case Snapshot(state) => Next(Sink(state, []))
  }

  /** The sink after one byte of the snapshot or its header. */
  function StepByte(s: Sink, b: nat, parseLen: LengthParser): Stepped {
    match s.state
    case Header =>
      if s.hdr == [] && (b == LF || b == CR) then Next(s)
      else
        var hdr := s.hdr + [b];
        if EndsLine(hdr) then EndLine(hdr[..|hdr| - 2], parseLen) else Next(Sink(Header, hdr))
    case Bulk(n) => Next(Sink(if n <= 1 then Done else Bulk(n - 1), s.hdr))
    case Eof(mark, carry) =>
      var c := carry + [b];
      Next(Sink(if c == mark then Done else Eof(mark, LastBytes(c, Keep(mark))), s.hdr))
    case Done => Next(s)
  }

  /** Between calls a mark is never empty or half consumed, and some bulk remains. */
  predicate Ok(s: Sink) {
    match s.state
    case Bulk(n) => n > 0
    case Eof(mark, carry) => |carry| < |mark|
    case _ => true
  }

  function Shift(v: Verdict, n: nat): Verdict {
    if v.Stop? then Stop(v.consumed + n) else v
  }

  /** Feed bytes one at a time until the snapshot ends. */
  function Run(s: Sink, data: Bytes, parseLen: LengthParser): Verdict
    decreases |data|
  {
    if s.state.Done? then Stop(0)
    else if data == [] then More(s)
    else
      match StepByte(s, data[0], parseLen)
      case Bad(e) => Fail(e)
      case Next(t) => Shift(Run(t, data[1..], parseLen), 1)
  }

  // ----- chunks ------------------------------------------------------------

  /** Stopping, failing or waiting in a chunk does not depend on what follows it. */
  lemma {:induction false} RunAppend(s: Sink, a: Bytes, b: Bytes, parseLen: LengthParser)
    ensures var v := Run(s, a, parseLen);
      Run(s, a + b, parseLen) == if v.More? then Shift(Run(v.sink, b, parseLen), |a|) else v
    decreases |a|
  {
    if s.state.Done? {
    } else if a == [] {
      assert a + b == b;
    } else {
      var t := StepByte(s, a[0], parseLen);
      assert (a + b)[0] == a[0] && (a + b)[1..] == a[1..] + b;
      if t.Next? { RunAppend(t.sink, a[1..], b, parseLen); }
    }
  }

  /** Chunk after chunk until the snapshot ends; `consumed` counts from the start of the stream. */
  function FeedAll(s: Sink, chunks: seq<Bytes>, parseLen: LengthParser): Verdict
    decreases |chunks|
  {
    if chunks == [] then Run(s, [], parseLen)
    else
      var v := Run(s, chunks[0], parseLen);
      if v.More? then Shift(FeedAll(v.sink, chunks[1..], parseLen), |chunks[0]|) else v
  }

  /** For every split of the stream the snapshot ends at the same byte. */
  lemma {:induction false} ChunksDoNotMatter(s: Sink, chunks: seq<Bytes>, parseLen: LengthParser)
    ensures FeedAll(s, chunks, parseLen) == Run(s, Flatten(chunks), parseLen)
    decreases |chunks|
  {
    if chunks != [] {
      RunAppend(s, chunks[0], Flatten(chunks[1..]), parseLen);
      var v := Run(s, chunks[0], parseLen);
      if v.More? { ChunksDoNotMatter(v.sink, chunks[1..], parseLen); }
    }
  }

  // ----- whole chunks at once ----------------------------------------------

  /** With a length, a chunk is skipped or ends the snapshot inside it. */
  lemma {:induction false} RunBulk(n: nat, hdr: Bytes, data: Bytes, parseLen: LengthParser)
    requires n > 0
    ensures Run(Sink(Bulk(n), hdr), data, parseLen) ==
            if n <= |data| then Stop(n) else More(Sink(Bulk(n - |data|), hdr))
    decreases |data|
  {
    if data != [] && n > 1 { RunBulk(n - 1, hdr, data[1..], parseLen); }
  }

  /** The first place where needle stands in hay. */
  function FindSub(hay: Bytes, needle: Bytes): (r: Option<nat>)
    ensures r.Some? ==> r.value + |needle| <= |hay| && hay[r.value..r.value + |needle|] == needle
    decreases |hay|
  {
    if |hay| < |needle| || hay == [] then None
    else if hay[..|needle|] == needle then Some(0)
    else
      match FindSub(hay[1..], needle)
      case None => None
      case Some(i) => assert hay[1..][i..i + |needle|] == hay[i + 1..i + 1 + |needle|]; Some(i + 1)
  }

  predicate StandsAt(hay: Bytes, needle: Bytes, i: nat) {
    i + |needle| <= |hay| && hay[i..i + |needle|] == needle
  }

  lemma {:induction false} StandsInTail(hay: Bytes, needle: Bytes, i: nat)
    requires hay != []
    ensures StandsAt(hay[1..], needle, i) <==> StandsAt(hay, needle, i + 1)
  {
    if i + 1 + |needle| <= |hay| { assert hay[1..][i..i + |needle|] == hay[i + 1..i + 1 + |needle|]; }
  }

  lemma {:induction false} FoundAt(hay: Bytes, needle: Bytes, i: nat)
    requires needle != [] && StandsAt(hay, needle, i) && forall j: nat :: j < i ==> !StandsAt(hay, needle, j)
    ensures FindSub(hay, needle) == Some(i)
    decreases i
  {
    if i > 0 {
      assert !StandsAt(hay, needle, 0);
      StandsInTail(hay, needle, i - 1);
      forall j: nat | j < i - 1 ensures !StandsAt(hay[1..], needle, j) { StandsInTail(hay, needle, j); }
      FoundAt(hay[1..], needle, i - 1);
    }
  }

  lemma {:induction false} FoundNowhere(hay: Bytes, needle: Bytes)
    requires needle != [] && forall j: nat :: j + |needle| <= |hay| ==> !StandsAt(hay, needle, j)
    ensures FindSub(hay, needle) == None
    decreases |hay|
  {
    if |hay| >= |needle| {
      assert !StandsAt(hay, needle, 0);
      forall j: nat | j + |needle| <= |hay[1..]| ensures !StandsAt(hay[1..], needle, j) {
        StandsInTail(hay, needle, j);
      }
      FoundNowhere(hay[1..], needle);
    }
  }

  method SearchSub(hay: Bytes, needle: Bytes) returns (r: Option<nat>)
    requires needle != []
    ensures r == FindSub(hay, needle)
  {
    var i: nat := 0;
    while i + |needle| <= |hay|
      invariant forall j: nat :: j < i ==> !StandsAt(hay, needle, j)
      decreases |hay| - i
    {
      if hay[i..i + |needle|] == needle {
        FoundAt(hay, needle, i);
        return Some(i);
      }
      i := i + 1;
    }
    FoundNowhere(hay, needle);
    r := None;
  }

  /** Where a mark ends, searched in the carried bytes and the new ones together. */
  function AfterMark(mark: Bytes, carry: Bytes, data: Bytes, hdr: Bytes): Verdict
    requires |carry| < |mark|
  {
    match FindSub(carry + data, mark)
    case Some(pos) => Stop(pos + |mark| - |carry|)
    case None => More(Sink(Eof(mark, LastBytes(carry + data, Keep(mark))), hdr))
  }

  lemma {:induction false} MarkHere(mark: Bytes, carry: Bytes, data: Bytes)
    requires data != [] && carry + [data[0]] == mark
    ensures FindSub(carry + data, mark) == Some(0)
  {
    assert (carry + data)[..|mark|] == mark;
  }

  /** A byte that still fits beside the carried ones changes nothing in their sum. */
  lemma {:induction false} CarryGrows(mark: Bytes, carry: Bytes, data: Bytes, hdr: Bytes)
    requires data != [] && |carry| + 1 < |mark|
    ensures AfterMark(mark, carry, data, hdr) == Shift(AfterMark(mark, carry + [data[0]], data[1..], hdr), 1)
  {
    assert carry + [data[0]] + data[1..] == carry + data;
  }

  lemma {:induction false} LastOfTail(x: nat, s: Bytes, n: nat)
    requires n <= |s|
    ensures LastBytes([x] + s, n) == LastBytes(s, n)
  {}

  lemma {:induction false} FindInTail(x: nat, s: Bytes, mark: Bytes)
    requires |mark| <= |s| + 1 && mark != [] && ([x] + s)[..|mark|] != mark
    ensures FindSub([x] + s, mark) == match FindSub(s, mark) case None => None case Some(i) => Some(i + 1)
  {
    assert ([x] + s)[1..] == s;
  }

  /** A byte that fills the window without completing the mark pushes the oldest one out. */
  lemma {:induction false} CarrySlides(mark: Bytes, carry: Bytes, data: Bytes, hdr: Bytes)
    requires data != [] && |carry| + 1 == |mark| && carry + [data[0]] != mark
    ensures var c := carry + [data[0]];
      AfterMark(mark, carry, data, hdr) == Shift(AfterMark(mark, c[1..], data[1..], hdr), 1)
  {
    var c := carry + [data[0]];
    var all, rest := carry + data, c[1..] + data[1..];
    assert all == [c[0]] + rest;
    assert all[..|mark|] == c;
    FindInTail(c[0], rest, mark);
    LastOfTail(c[0], rest, Keep(mark));
  }

  /** Searching a whole chunk for the mark is the same as watching byte by byte. */
  lemma {:induction false} RunEof(mark: Bytes, carry: Bytes, hdr: Bytes, data: Bytes, parseLen: LengthParser)
    requires |carry| < |mark|
    ensures Run(Sink(Eof(mark, carry), hdr), data, parseLen) == AfterMark(mark, carry, data, hdr)
    decreases |data|
  {
    if data == [] {
      assert carry + data == carry;
    } else {
      var c := carry + [data[0]];
      if c == mark {
        MarkHere(mark, carry, data);
      } else if |c| < |mark| {
        RunEof(mark, c, hdr, data[1..], parseLen);
        CarryGrows(mark, carry, data, hdr);
      } else {
        RunEof(mark, c[1..], hdr, data[1..], parseLen);
        CarrySlides(mark, carry, data, hdr);
      }
    }
  }

  // ----- the sink object ---------------------------------------------------

  class RdbSink {
    var state: State
    var hdr: Bytes

    function View(): Sink
      reads this
    {
      Sink(state, hdr)
    }

    constructor ()
      ensures View() == Sink(Header, [])
    {
      state, hdr := Header, [];
    }

    /** Header bytes up to the end of the line, from position i on. */
    method FeedHeader(data: Bytes, i: nat, parseLen: LengthParser) returns (i': nat, failed: Option<Error>)
      requires i <= |data| && state.Header?
      modifies this
      ensures i <= i' <= |data| && Ok(View())
      ensures failed.None? && state.Header? ==> i' == |data|
      ensures Shift(Run(old(View()), data[i..], parseLen), i) ==
              if failed.Some? then Fail(failed.value) else Shift(Run(View(), data[i'..], parseLen), i')
    {
      i' := i;
      ghost var whole := Shift(Run(View(), data[i..], parseLen), i);
      while i' < |data|
        invariant i <= i' <= |data| && state.Header?
        invariant Shift(Run(View(), data[i'..], parseLen), i') == whole
      {
        var b := data[i'];
        assert data[i'..][1..] == data[i' + 1..];
        i' := i' + 1;
        if hdr == [] && (b == LF || b == CR) {
          continue;
        }
        hdr := hdr + [b];
        if EndsLine(hdr) {
          var announced := ReadHeader(hdr[..|hdr| - 2], parseLen);
          hdr := [];
          if announced.Refused? {
            state := Done;
            return i', Some(announced.error);
          }
          state := announced.state;
          return i', None;
        }
      }
      failed := None;
    }

    /** Feed one chunk. */
    method Feed(data: Bytes, parseLen: LengthParser) returns (v: Verdict)
      requires Ok(View())
      modifies this
      ensures v == Run(old(View()), data, parseLen)
      ensures Ok(View()) && (v.More? ==> View() == v.sink)
    {
      var i := 0;
      if state.Header? {
        var failed: Option<Error>;
        i, failed := FeedHeader(data, 0, parseLen);
        if failed.Some? {
          return Fail(failed.value);
        }
      }
      var rest := data[i..];
      match state
      case Header =>
        v := More(View());
      case Bulk(n) =>
        RunBulk(n, hdr, rest, parseLen);
        if n <= |rest| {
          state := Done;
          v := Stop(i + n);
        } else {
          state := Bulk(n - |rest|);
          v := More(View());
        }
      case Eof(mark, carry) =>
        RunEof(mark, carry, hdr, rest, parseLen);
        var pos := SearchSub(carry + rest, mark);
        if pos.Some? {
          state := Done;
          v := Stop(i + (pos.value + |mark| - |carry|));
        } else {
          state := Eof(mark, LastBytes(carry + rest, Keep(mark)));
          v := More(View());
        }
      case Done =>
        v := Stop(i);
    }
  }
}
