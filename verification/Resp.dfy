/** The RESP request parser: one command from the front of a byte buffer. */
module Resp {
  import opened ByteStrings
  import opened Options

  const MINUS: nat := 45
  const STAR: nat := 42
  const ZERO: nat := 48
  const MAX_BULK: nat := 512 * 1024 * 1024
  const MAX_ARGS: nat := 1024 * 1024
  const I64_MAX: nat := 0x7FFF_FFFF_FFFF_FFFF

  datatype Error =
    | InvalidMultibulk
    | ExpectedDollar(got: nat)
    | InvalidBulk
    | MissingCrlf
    | BadLine
    | InvalidInteger
    | IntegerOverflow
    | TooLarge

  /** The result of one attempt: a command may have no arguments. */
  datatype Step = NeedMore | Command(consumed: nat, args: seq<Bytes>) | Failed(error: Error)

  datatype Line = Incomplete | At(end: nat, next: nat) | Malformed

  datatype Integer = Value(v: int) | Bad(error: Error)

  // ----- lines -------------------------------------------------------------

  function FindLf(data: Bytes, start: nat): (r: Option<nat>)
    requires start <= |data|
    ensures r.Some? ==> start <= r.value < |data| && data[r.value] == LF
    decreases |data| - start
  {
    if start == |data| then None
    else if data[start] == LF then Some(start)
    else FindLf(data, start + 1)
  }

  method SearchLf(data: Bytes, start: nat) returns (r: Option<nat>)
    requires start <= |data|
    ensures r == FindLf(data, start)
  {
    var i := start;
    while i < |data|
      invariant start <= i <= |data| && FindLf(data, start) == FindLf(data, i)
    {
      if data[i] == LF {
        return Some(i);
      }
      i := i + 1;
    }
    r := None;
  }

  /** A line that must end in CR LF. */
  function ReadLine(data: Bytes, start: nat): (r: Line)
    requires start <= |data|
    ensures r.At? ==> start <= r.end && r.next == r.end + 2 && r.next <= |data|
  {
    match FindLf(data, start)
    case None => Incomplete
    case Some(nl) => if nl == start || data[nl - 1] != CR then Malformed else At(nl - 1, nl + 1)
  }

  // ----- integers ----------------------------------------------------------

  function Digits(s: Bytes): Integer {
    if s == [] then Value(0) else NextDigit(Digits(s[..|s| - 1]), s[|s| - 1])
  }

  function NextDigit(v: Integer, b: nat): Integer {
    match v
    case Bad(e) => Bad(e)
    case Value(v) =>
      if !(ZERO <= b <= ZERO + 9) then Bad(InvalidInteger)
      else if v * 10 + (b - ZERO) > I64_MAX then Bad(IntegerOverflow)
      else Value(v * 10 + (b - ZERO))
  }

  lemma {:induction false} DigitsAt(s: Bytes, i: nat)
    requires i < |s|
    ensures Digits(s[..i + 1]) == NextDigit(Digits(s[..i]), s[i])
  {
    assert s[..i + 1][..i] == s[..i];
  }

  lemma {:induction false} DigitsStop(s: Bytes, i: nat)
    requires i <= |s| && Digits(s[..i]).Bad?
    ensures Digits(s) == Digits(s[..i])
    decreases |s|
  {
    if i == |s| {
      assert s[..i] == s;
    } else {
      var front := s[..|s| - 1];
      assert front[..i] == s[..i];
      DigitsStop(front, i);
    }
  }

  function ParseInt(s: Bytes): Integer {
    var neg := s != [] && s[0] == MINUS;
    var digits := if neg then s[1..] else s;
    if digits == [] then Bad(InvalidInteger)
    else
      match Digits(digits)
      case Bad(e) => Bad(e)
      case Value(v) => Value(if neg then -v else v)
  }

  method ReadInt(s: Bytes) returns (r: Integer)
    ensures r == ParseInt(s)
  {
    var neg := s != [] && s[0] == MINUS;
    var digits := if neg then s[1..] else s;
    if digits == [] {
      return Bad(InvalidInteger);
    }
    var val := 0;
    for i := 0 to |digits|
      invariant Digits(digits[..i]) == Value(val)
    {
      DigitsAt(digits, i);
      var b := digits[i];
      if !(ZERO <= b <= ZERO + 9) {
        DigitsStop(digits, i + 1);
        return Bad(InvalidInteger);
      }
      if val * 10 + (b - ZERO) > I64_MAX {
        DigitsStop(digits, i + 1);
        return Bad(IntegerOverflow);
      }
      val := val * 10 + (b - ZERO);
    }
    assert digits[..|digits|] == digits;
    r := Value(if neg then -val else val);
  }

  // ----- multi-bulk arrays -------------------------------------------------

  /** One bulk string at pos: its bytes and where the next one starts. */
  datatype Bulk = Wait | Read(arg: Bytes, next: nat) | Broken(error: Error)

  function ReadBulk(data: Bytes, pos: nat): (r: Bulk)
    requires pos <= |data|
    ensures r.Read? ==> pos < r.next <= |data|
  {
    if pos == |data| then Wait
    else if data[pos] != DOLLAR then Broken(ExpectedDollar(data[pos]))
    else
      match ReadLine(data, pos + 1)
      case Incomplete => Wait
      case Malformed => Broken(BadLine)
      case At(end, next) =>
        match ParseInt(data[pos + 1..end])
        case Bad(e) => Broken(e)
        case Value(len) =>
          if len < 0 then Broken(InvalidBulk)
          else if len > MAX_BULK then Broken(TooLarge)
          else if next + len + 2 > |data| then Wait
          else if data[next + len] != CR || data[next + len + 1] != LF then Broken(MissingCrlf)
          else Read(data[next..next + len], next + len + 2)
  }

  function ReadBulks(data: Bytes, pos: nat, count: nat, args: seq<Bytes>): (r: Step)
    requires pos <= |data|
    ensures r.Command? ==> pos <= r.consumed <= |data|
    decreases count
  {
    if count == 0 then Command(pos, args)
    else
      match ReadBulk(data, pos)
      case Wait => NeedMore
      case Broken(e) => Failed(e)
      case Read(arg, next) => ReadBulks(data, next, count - 1, args + [arg])
  }

  function Multibulk(data: Bytes): (r: Step)
    requires data != []
    ensures r.Command? ==> 0 < r.consumed <= |data|
  {
    match ReadLine(data, 1)
    case Incomplete => NeedMore
    case Malformed => Failed(BadLine)
    case At(end, next) =>
      match ParseInt(data[1..end])
      case Bad(e) => Failed(e)
      case Value(count) =>
        if count < 0 then Failed(InvalidMultibulk)
        else if count > MAX_ARGS then Failed(TooLarge)
        else ReadBulks(data, next, count, [])
  }

  method ParseMultibulk(data: Bytes) returns (r: Step)
    requires data != []
    ensures r == Multibulk(data)
  {
    var line := ReadLine(data, 1);
    if line.Incomplete? {
      return NeedMore;
    }
    if line.Malformed? {
      return Failed(BadLine);
    }
    var number := ReadInt(data[1..line.end]);
    if number.Bad? {
      return Failed(number.error);
    }
    var count := number.v;
    if count < 0 {
      return Failed(InvalidMultibulk);
    }
    if count > MAX_ARGS {
      return Failed(TooLarge);
    }
    var pos := line.next;
    var args: seq<Bytes> := [];
    for i := 0 to count
      invariant line.next <= pos <= |data| && Multibulk(data) == ReadBulks(data, pos, count - i, args)
    {
      var bulk := ReadBulk(data, pos);
      if bulk.Wait? {
        return NeedMore;
      }
      if bulk.Broken? {
        return Failed(bulk.error);
      }
      pos := bulk.next;
      args := args + [bulk.arg];
    }
    r := Command(pos, args);
  }

  // ----- inline commands ---------------------------------------------------

  predicate IsSpace(b: nat) {
    b == 32 || b == 9 || b == 10 || b == 12 || b == 13
  }

  /** The words of a line, and the bytes of the word that is still open at its end. */
  function Words(line: Bytes): (seq<Bytes>, Bytes) {
    if line == [] then ([], [])
    else
      var (words, open) := Words(line[..|line| - 1]);
      var b := line[|line| - 1];
      if !IsSpace(b) then (words, open + [b])
      else if open == [] then (words, [])
      else (words + [open], [])
  }

  function Split(line: Bytes): seq<Bytes> {
    var (words, open) := Words(line);
    if open == [] then words else words + [open]
  }

  method SplitLine(line: Bytes) returns (args: seq<Bytes>)
    ensures args == Split(line)
  {
    args := [];
    var open: Bytes := [];
    for i := 0 to |line|
      invariant Words(line[..i]) == (args, open)
    {
      assert line[..i + 1][..i] == line[..i];
      if !IsSpace(line[i]) {
        open := open + [line[i]];
      } else if open != [] {
        args := args + [open];
        open := [];
      }
    }
    assert line[..|line|] == line;
    if open != [] {
      args := args + [open];
    }
  }

  function Inline(data: Bytes): (r: Step)
    ensures r.Command? ==> 0 < r.consumed <= |data|
  {
    match FindLf(data, 0)
    case None => NeedMore
    case Some(nl) =>
      var end := if nl > 0 && data[nl - 1] == CR then nl - 1 else nl;
      Command(nl + 1, Split(data[..end]))
  }

  /** Parse one command from the front of the data. */
  function Parse(data: Bytes): (r: Step)
    ensures r.Command? ==> 0 < r.consumed <= |data|
  {
    if data == [] then NeedMore
    else if data[0] == STAR then Multibulk(data)
    else Inline(data)
  }

  method ParseCommand(data: Bytes) returns (r: Step)
    ensures r == Parse(data)
  {
    if data == [] {
      return NeedMore;
    }
    if data[0] == STAR {
      r := ParseMultibulk(data);
      return;
    }
    var nl := SearchLf(data, 0);
    if nl.None? {
      return NeedMore;
    }
    var end := nl.value;
    if end > 0 && data[end - 1] == CR {
      end := end - 1;
    }
    var args := SplitLine(data[..end]);
    r := Command(nl.value + 1, args);
  }
}
