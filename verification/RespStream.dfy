/** Commands from a byte stream: how the bytes are cut into chunks does not matter. */
module RespStream {
  import opened ByteStrings
  import opened Resp

  // ----- more bytes never change a verdict ---------------------------------

  lemma {:induction false} FindLfStable(data: Bytes, t: Bytes, start: nat)
    requires start <= |data| && FindLf(data, start).Some?
    ensures FindLf(data + t, start) == FindLf(data, start)
    decreases |data| - start
  {
    if data[start] != LF { FindLfStable(data, t, start + 1); }
  }

  lemma {:induction false} LineStable(data: Bytes, t: Bytes, start: nat)
    requires start <= |data| && !ReadLine(data, start).Incomplete?
    ensures ReadLine(data + t, start) == ReadLine(data, start)
  {
    FindLfStable(data, t, start);
  }

  lemma {:induction false} PartStable(data: Bytes, t: Bytes, i: nat, j: nat)
    requires i <= j <= |data|
    ensures (data + t)[i..j] == data[i..j]
  {}

  lemma {:induction false} BulkStable(data: Bytes, t: Bytes, pos: nat)
    requires pos <= |data| && !ReadBulk(data, pos).Wait?
    ensures ReadBulk(data + t, pos) == ReadBulk(data, pos)
  {
    if data[pos] == DOLLAR {
      LineStable(data, t, pos + 1);
      var line := ReadLine(data, pos + 1);
      if line.At? {
        PartStable(data, t, pos + 1, line.end);
        var len := ParseInt(data[pos + 1..line.end]);
        if len.Value? && 0 <= len.v <= MAX_BULK && line.next + len.v + 2 <= |data| {
          PartStable(data, t, line.next, line.next + len.v);
        }
      }
    }
  }

  lemma {:induction false} BulksStable(data: Bytes, t: Bytes, pos: nat, count: nat, args: seq<Bytes>)
    requires pos <= |data| && !ReadBulks(data, pos, count, args).NeedMore?
    ensures ReadBulks(data + t, pos, count, args) == ReadBulks(data, pos, count, args)
    decreases count
  {
    if count > 0 {
      BulkStable(data, t, pos);
      var bulk := ReadBulk(data, pos);
      if bulk.Read? { BulksStable(data, t, bulk.next, count - 1, args + [bulk.arg]); }
    }
  }

  lemma {:induction false} MultibulkStable(data: Bytes, t: Bytes)
    requires data != [] && !Multibulk(data).NeedMore?
    ensures Multibulk(data + t) == Multibulk(data)
  {
    LineStable(data, t, 1);
    var line := ReadLine(data, 1);
    if line.At? {
      PartStable(data, t, 1, line.end);
      var count := ParseInt(data[1..line.end]);
      if count.Value? && 0 <= count.v <= MAX_ARGS { BulksStable(data, t, line.next, count.v, []); }
    }
  }

  lemma {:induction false} InlineStable(data: Bytes, t: Bytes)
    requires !Inline(data).NeedMore?
    ensures Inline(data + t) == Inline(data)
  {
    FindLfStable(data, t, 0);
    var nl := FindLf(data, 0).value;
    PartStable(data, t, 0, if nl > 0 && data[nl - 1] == CR then nl - 1 else nl);
  }

  /** A command or an error found in a buffer is found in every extension of it. */
  lemma {:induction false} ParseStable(data: Bytes, t: Bytes)
    requires !Parse(data).NeedMore?
    ensures Parse(data + t) == Parse(data)
  {
    if data[0] == STAR { MultibulkStable(data, t); } else { InlineStable(data, t); }
  }

  // ----- all commands of a buffer ------------------------------------------

  datatype End = Waiting(rest: Bytes) | Closed(error: Error)

  /** Commands in order, and what stopped the parser. */
  datatype Output = Output(commands: seq<seq<Bytes>>, end: End)

  function Prepend(args: seq<Bytes>, o: Output): Output {
    if args == [] then o else Output([args] + o.commands, o.end)
  }

  function Drain(data: Bytes): Output
    decreases |data|
  {
    match Parse(data)
    case NeedMore => Output([], Waiting(data))
    case Failed(e) => Output([], Closed(e))
    case Command(n, args) => Prepend(args, Drain(data[n..]))
  }

  function Then(o: Output, next: Output): Output {
    Output(o.commands + next.commands, next.end)
  }

  lemma {:induction false} PrependThen(args: seq<Bytes>, o: Output, next: Output)
    ensures Prepend(args, Then(o, next)) == Then(Prepend(args, o), next)
  {
    if args != [] { assert [args] + (o.commands + next.commands) == ([args] + o.commands) + next.commands; }
  }

  /** Bytes that arrive later continue where the parser stopped. */
  lemma {:induction false} DrainAppend(data: Bytes, t: Bytes)
    ensures var o := Drain(data);
      Drain(data + t) == if o.end.Closed? then o else Then(o, Drain(o.end.rest + t))
    decreases |data|
  {
    match Parse(data)
    case NeedMore =>
      assert [] + Drain(data + t).commands == Drain(data + t).commands;
    case Failed(e) =>
      ParseStable(data, t);
    case Command(n, args) =>
      ParseStable(data, t);
      assert (data + t)[n..] == data[n..] + t;
      DrainAppend(data[n..], t);
      var o := Drain(data[n..]);
      if o.end.Waiting? { PrependThen(args, o, Drain(o.end.rest + t)); }
  }

  // ----- chunks ------------------------------------------------------------

  /** Feed chunk after chunk, taking all commands in between; an error closes the connection. */
  function FeedAll(rest: Bytes, chunks: seq<Bytes>): Output
    decreases |chunks|
  {
    if chunks == [] then Drain(rest)
    else
      var o := Drain(rest + chunks[0]);
      if o.end.Closed? then o else Then(o, FeedAll(o.end.rest, chunks[1..]))
  }

  /** For every split of a stream the commands and the end are those of the whole stream. */
  lemma {:induction false} ChunksDoNotMatter(rest: Bytes, chunks: seq<Bytes>)
    ensures FeedAll(rest, chunks) == Drain(rest + Flatten(chunks))
    decreases |chunks|
  {
    if chunks == [] {
      assert rest + Flatten(chunks) == rest;
    } else {
      var head, tail := rest + chunks[0], Flatten(chunks[1..]);
      assert rest + Flatten(chunks) == head + tail;
      DrainAppend(head, tail);
      var o := Drain(head);
      if o.end.Waiting? { ChunksDoNotMatter(o.end.rest, chunks[1..]); }
    }
  }

  // ----- the parser object -------------------------------------------------

  const COMPACT_THRESHOLD: nat := 8192

  datatype Next = More(rest: Bytes) | Got(args: seq<Bytes>, rest: Bytes) | Fatal(error: Error, rest: Bytes)

  /** The next command with arguments; empty ones are skipped. */
  function NextOf(data: Bytes): Next
    decreases |data|
  {
    match Parse(data)
    case NeedMore => More(data)
    case Failed(e) => Fatal(e, data)
    case Command(n, args) => if args == [] then NextOf(data[n..]) else Got(args, data[n..])
  }

  lemma {:induction false} NextShrinks(data: Bytes)
    ensures var n := NextOf(data); |n.rest| <= |data| && (n.Got? ==> |n.rest| < |data| && n.args != [])
    decreases |data|
  {
    var p := Parse(data);
    if p.Command? && p.args == [] { NextShrinks(data[p.consumed..]); }
  }

  /** Draining is taking the next command until there is none. */
  lemma {:induction false} DrainByNext(data: Bytes)
    ensures match NextOf(data)
            case More(rest) => Drain(data) == Output([], Waiting(rest))
            case Fatal(e, _) => Drain(data) == Output([], Closed(e))
            case Got(args, rest) => Drain(data) == Prepend(args, Drain(rest))
    decreases |data|
  {
    var p := Parse(data);
    if p.Command? && p.args == [] { DrainByNext(data[p.consumed..]); }
  }

  class RespParser {
    var buf: Bytes
    var head: nat
    /** Everything fed so far, and how much of it commands have consumed. */
    ghost var fed: Bytes
    ghost var consumed: nat

    ghost predicate Valid()
      reads this
    {
      head <= |buf| && consumed <= |fed| && fed[consumed..] == buf[head..]
    }

    function Pending(): Bytes
      requires head <= |buf|
      reads this
    {
      buf[head..]
    }

    constructor ()
      ensures Valid() && Pending() == [] && fed == [] && consumed == 0
    {
      buf, head, fed, consumed := [], 0, [], 0;
    }

    method Feed(data: Bytes)
      requires Valid()
      modifies this
      ensures Valid() && Pending() == old(Pending()) + data && fed == old(fed) + data && consumed == old(consumed)
    {
      buf := buf + data;
      fed := fed + data;
    }

    /** Bytes that are fed and not consumed are buffered. */
    method Buffered() returns (n: nat)
      requires Valid()
      ensures n == |Pending()| && consumed + n == |fed|
    {
      n := |buf| - head;
    }

    method MaybeCompact()
      requires Valid()
      modifies this`buf, this`head
      ensures Valid() && Pending() == old(Pending())
    {
      if head == |buf| {
        buf, head := [], 0;
      } else if head >= COMPACT_THRESHOLD {
        buf, head := buf[head..], 0;
      }
    }

    method Consume(n: nat)
      requires Valid() && n <= |Pending()|
      modifies this`buf, this`head, this`consumed
      ensures Valid() && Pending() == old(Pending())[n..] && consumed == old(consumed) + n
    {
      assert buf[head..][n..] == buf[head + n..] && fed[consumed..][n..] == fed[consumed + n..];
      head := head + n;
      consumed := consumed + n;
      MaybeCompact();
    }

    /** The next command, if one is complete. */
    method NextCommand() returns (r: Next)
      requires Valid()
      modifies this
      ensures Valid() && fed == old(fed) && r == NextOf(old(Pending())) && Pending() == r.rest
    {
      while true
        invariant Valid() && fed == old(fed) && NextOf(Pending()) == NextOf(old(Pending()))
        decreases |Pending()|
      {
        var step := ParseCommand(buf[head..]);
        match step
        case NeedMore => return More(buf[head..]);
        case Failed(e) => return Fatal(e, buf[head..]);
        case Command(n, args) =>
          Consume(n);
          if args != [] {
            return Got(args, buf[head..]);
          }
      }
    }

    /** Take commands until none is complete or the stream is broken. */
    method TakeAll() returns (commands: seq<seq<Bytes>>, end: End)
      requires Valid()
      modifies this
      ensures Valid() && fed == old(fed) && Output(commands, end) == Drain(old(Pending()))
      ensures end.Waiting? ==> Pending() == end.rest
    {
      commands := [];
      ghost var start := Pending();
      while true
        invariant Valid() && fed == old(fed) && Then(Output(commands, Waiting([])), Drain(Pending())) == Drain(start)
        decreases |Pending()|
      {
        ghost var before := Pending();
        DrainByNext(before);
        NextShrinks(before);
        var next := NextCommand();
        match next
        case More(rest) => return commands, Waiting(rest);
        case Fatal(e, _) => return commands, Closed(e);
        case Got(args, rest) =>
          assert commands + ([args] + Drain(rest).commands) == (commands + [args]) + Drain(rest).commands;
          commands := commands + [args];
      }
    }
  }
}
