/** Commands encoded as multi-bulk arrays parse back to their arguments, also when pipelined. */
module RespEncode {
  import opened ByteStrings
  import opened Options
  import opened Resp
  import opened RespStream

  const CRLF: Bytes := [CR, LF]

  function Decimal(n: nat): Bytes {
    if n < 10 then [ZERO + n] else Decimal(n / 10) + [ZERO + n % 10]
  }

  function BulkOf(dec: nat -> Bytes, a: Bytes): Bytes {
    [DOLLAR] + dec(|a|) + CRLF + a + CRLF
  }

  function Bulks(dec: nat -> Bytes, args: seq<Bytes>): Bytes {
    if args == [] then [] else BulkOf(dec, args[0]) + Bulks(dec, args[1..])
  }

  /** An encoded command, with lengths written as `dec` writes numbers. */
  function EncodeWith(dec: nat -> Bytes, args: seq<Bytes>): Bytes {
    [STAR] + dec(|args|) + CRLF + Bulks(dec, args)
  }

  function Encode(args: seq<Bytes>): Bytes {
    EncodeWith(Decimal, args)
  }

  method EncodeCommand(args: seq<Bytes>) returns (b: Bytes)
    ensures b == Encode(args)
  {
    b := [STAR] + Decimal(|args|) + CRLF;
    ghost var header := b;
    for i := 0 to |args|
      invariant header + Bulks(Decimal, args) == b + Bulks(Decimal, args[i..])
    {
      var bulk := [DOLLAR] + Decimal(|args[i]|) + CRLF + args[i] + CRLF;
      assert b + (bulk + Bulks(Decimal, args[i + 1..])) == (b + bulk) + Bulks(Decimal, args[i + 1..]);
      b := b + bulk;
    }
  }

  // ----- numbers -----------------------------------------------------------

  predicate AllDigits(s: Bytes) {
    forall b :: b in s ==> ZERO <= b <= ZERO + 9
  }

  lemma {:induction false} DecimalDigits(n: nat)
    ensures Decimal(n) != [] && AllDigits(Decimal(n))
  {
    if n >= 10 { DecimalDigits(n / 10); }
  }

  lemma {:induction false} DecimalValue(n: nat)
    requires n <= I64_MAX
    ensures Digits(Decimal(n)) == Value(n)
  {
    if n < 10 {
      assert Decimal(n)[..0] == [];
    } else {
      DecimalValue(n / 10);
      var front, b := Decimal(n / 10), ZERO + n % 10;
      assert (front + [b])[..|front|] == front;
    }
  }

  /** d is a line-free way to write n. */
  predicate Writes(d: Bytes, n: nat) {
    ParseInt(d) == Value(n) && LF !in d
  }

  lemma {:induction false} DecimalWrites(n: nat)
    requires n <= I64_MAX
    ensures Writes(Decimal(n), n)
  {
    DecimalDigits(n);
    DecimalValue(n);
    assert Decimal(n)[0] in Decimal(n);
  }

  /** Numbers up to the limits are written so that they read back. */
  ghost predicate Numerals(dec: nat -> Bytes) {
    forall n: nat {:trigger Writes(dec(n), n)} :: n <= I64_MAX ==> Writes(dec(n), n)
  }

  // ----- lines -------------------------------------------------------------

  lemma {:induction false} FindAfterDigits(data: Bytes, start: nat, end: nat)
    requires start <= end < |data| && data[end] == LF && forall i :: start <= i < end ==> data[i] != LF
    ensures FindLf(data, start) == Some(end)
    decreases end - start
  {
    if start < end { FindAfterDigits(data, start + 1, end); }
  }

  /** The bytes of s stand at pos. */
  predicate Has(data: Bytes, pos: nat, s: Bytes) {
    pos + |s| <= |data| && forall i {:trigger s[i]} :: 0 <= i < |s| ==> data[pos + i] == s[i]
  }

  lemma {:induction false} HasConcat(data: Bytes, pos: nat, s: Bytes, t: Bytes)
    requires Has(data, pos, s + t)
    ensures Has(data, pos, s) && Has(data, pos + |s|, t)
  {
    var u := s + t;
    forall i | 0 <= i < |s| ensures data[pos + i] == s[i] { assert u[i] == s[i]; }
    forall i | 0 <= i < |t| ensures data[pos + |s| + i] == t[i] { assert u[|s| + i] == t[i]; }
  }

  lemma {:induction false} HasSlice(data: Bytes, pos: nat, s: Bytes)
    requires Has(data, pos, s)
    ensures data[pos..pos + |s|] == s
  {}

  /** A number written as a line is read back, wherever it stands. */
  lemma {:induction false} NumberLine(data: Bytes, pos: nat, d: Bytes)
    requires Has(data, pos, d) && Has(data, pos + |d|, CRLF) && LF !in d
    ensures ReadLine(data, pos) == At(pos + |d|, pos + |d| + 2) && data[pos..pos + |d|] == d
  {
    var end := pos + |d|;
    assert CRLF[0] == CR && CRLF[1] == LF;
    forall i | pos <= i < end + 1 ensures data[i] != LF {
      if i < end { assert data[pos + (i - pos)] == d[i - pos] && d[i - pos] in d; }
    }
    FindAfterDigits(data, pos, end + 1);
    HasSlice(data, pos, d);
  }

  // ----- bulk strings ------------------------------------------------------

  /** The parts of an encoded bulk string. */
  lemma {:induction false} BulkParts(data: Bytes, pos: nat, d: Bytes, a: Bytes)
    requires Has(data, pos, [DOLLAR] + d + CRLF + a + CRLF)
    ensures Has(data, pos, [DOLLAR]) && Has(data, pos + 1, d) && Has(data, pos + 1 + |d|, CRLF)
    ensures Has(data, pos + 3 + |d|, a) && Has(data, pos + 3 + |d| + |a|, CRLF)
  {
    HasConcat(data, pos, [DOLLAR] + d + CRLF + a, CRLF);
    HasConcat(data, pos, [DOLLAR] + d + CRLF, a);
    HasConcat(data, pos, [DOLLAR] + d, CRLF);
    HasConcat(data, pos, [DOLLAR], d);
  }

  lemma {:induction false} BulkRead(data: Bytes, pos: nat, d: Bytes, a: Bytes)
    requires |a| <= MAX_BULK && Writes(d, |a|) && Has(data, pos, [DOLLAR] + d + CRLF + a + CRLF)
    ensures ReadBulk(data, pos) == Read(a, pos + 1 + |d| + 2 + |a| + 2)
  {
    BulkParts(data, pos, d, a);
    assert [DOLLAR][0] == DOLLAR && CRLF[0] == CR && CRLF[1] == LF;
    NumberLine(data, pos + 1, d);
    HasSlice(data, pos + 3 + |d|, a);
  }

  predicate AllFit(args: seq<Bytes>) {
    forall a :: a in args ==> |a| <= MAX_BULK
  }

  predicate WithinLimits(args: seq<Bytes>) {
    |args| <= MAX_ARGS && AllFit(args)
  }

  lemma {:induction false} FirstFits(args: seq<Bytes>)
    requires AllFit(args) && args != []
    ensures |args[0]| <= MAX_BULK && AllFit(args[1..])
  {
    assert args[0] in args;
  }

  /** The first encoded argument is read, and the others follow it. */
  lemma {:induction false} FirstRead(data: Bytes, pos: nat, dec: nat -> Bytes, args: seq<Bytes>)
    requires Numerals(dec) && args != [] && AllFit(args) && Has(data, pos, Bulks(dec, args))
    ensures var next := pos + |BulkOf(dec, args[0])|;
      && next <= |data| && ReadBulk(data, pos) == Read(args[0], next) &&
        Has(data, next, Bulks(dec, args[1..])) && AllFit(args[1..])
      && next + |Bulks(dec, args[1..])| == pos + |Bulks(dec, args)|
  {
    FirstFits(args);
    assert Writes(dec(|args[0]|), |args[0]|);
    HasConcat(data, pos, BulkOf(dec, args[0]), Bulks(dec, args[1..]));
    BulkRead(data, pos, dec(|args[0]|), args[0]);
  }

  lemma {:induction false} ReadsOneMore(data: Bytes, pos: nat, next: nat, args: seq<Bytes>, done: seq<Bytes>, end: nat)
    requires args != [] && pos <= |data| && next <= |data| && ReadBulk(data, pos) == Read(args[0], next)
    requires ReadBulks(data, next, |args[1..]|, done + [args[0]]) == Command(end, done + [args[0]] + args[1..])
    ensures ReadBulks(data, pos, |args|, done) == Command(end, done + args)
  {
    assert done + [args[0]] + args[1..] == done + args;
  }

  lemma {:induction false} NoneToRead(data: Bytes, pos: nat, dec: nat -> Bytes, done: seq<Bytes>)
    requires pos <= |data|
    ensures ReadBulks(data, pos, 0, done) == Command(pos + |Bulks(dec, [])|, done + [])
  {
    assert done + [] == done;
  }

  lemma {:induction false} BulksRead(data: Bytes, pos: nat, dec: nat -> Bytes, args: seq<Bytes>, done: seq<Bytes>)
    requires Numerals(dec) && AllFit(args) && Has(data, pos, Bulks(dec, args))
    ensures ReadBulks(data, pos, |args|, done) == Command(pos + |Bulks(dec, args)|, done + args)
    decreases |args|
  {
    if args == [] {
      NoneToRead(data, pos, dec, done);
    } else {
      var next := pos + |BulkOf(dec, args[0])|;
      FirstRead(data, pos, dec, args);
      BulksRead(data, next, dec, args[1..], done + [args[0]]);
      ReadsOneMore(data, pos, next, args, done, pos + |Bulks(dec, args)|);
    }
  }

  lemma {:induction false} HeaderParts(data: Bytes, d: Bytes, body: Bytes)
    requires Has(data, 0, [STAR] + d + CRLF + body)
    ensures Has(data, 0, [STAR]) && Has(data, 1, d) && Has(data, 1 + |d|, CRLF) && Has(data, 3 + |d|, body)
  {
    HasConcat(data, 0, [STAR] + d + CRLF, body);
    HasConcat(data, 0, [STAR] + d, CRLF);
    HasConcat(data, 0, [STAR], d);
  }

  /** A header line announcing n arguments. */
  lemma {:induction false} HeaderRead(data: Bytes, d: Bytes, n: nat)
    requires Has(data, 0, [STAR]) && Has(data, 1, d) && Has(data, 1 + |d|, CRLF) && Writes(d, n) && n <= MAX_ARGS
    ensures 3 + |d| <= |data| && Parse(data) == ReadBulks(data, 3 + |d|, n, [])
  {
    assert [STAR][0] == STAR;
    NumberLine(data, 1, d);
  }

  lemma {:induction false} CommandRead(data: Bytes, dec: nat -> Bytes, args: seq<Bytes>)
    requires Numerals(dec) && WithinLimits(args) && Has(data, 0, EncodeWith(dec, args))
    ensures Parse(data) == Command(|EncodeWith(dec, args)|, args)
  {
    var d := dec(|args|);
    HeaderParts(data, d, Bulks(dec, args));
    assert Writes(d, |args|);
    HeaderRead(data, d, |args|);
    BulksRead(data, 3 + |d|, dec, args, []);
    NothingBefore(args);
  }

  lemma {:induction false} NothingBefore(args: seq<Bytes>)
    ensures [] + args == args
  {}

  /** Encoded arguments parse back to themselves and leave what follows untouched. */
  lemma {:induction false} EncodeParses(args: seq<Bytes>, after: Bytes)
    requires WithinLimits(args)
    ensures Parse(Encode(args) + after) == Command(|Encode(args)|, args)
  {
    forall n: nat | n <= I64_MAX ensures Writes(Decimal(n), n) { DecimalWrites(n); }
    CommandRead(Encode(args) + after, Decimal, args);
  }

  // ----- limits ------------------------------------------------------------

  lemma {:induction false} BulkTooLarge(data: Bytes, pos: nat, d: Bytes, a: Bytes)
    requires |a| > MAX_BULK && Writes(d, |a|) && Has(data, pos, [DOLLAR] + d + CRLF + a + CRLF)
    ensures ReadBulk(data, pos) == Broken(TooLarge)
  {
    BulkParts(data, pos, d, a);
    assert [DOLLAR][0] == DOLLAR;
    NumberLine(data, pos + 1, d);
  }

  /** Lengths that a header can announce. */
  predicate Announced(args: seq<Bytes>) {
    |args| <= I64_MAX && forall a :: a in args ==> |a| <= I64_MAX
  }

  lemma {:induction false} FirstStands(data: Bytes, pos: nat, dec: nat -> Bytes, args: seq<Bytes>)
    requires Numerals(dec) && args != [] && Announced(args) && Has(data, pos, Bulks(dec, args))
    ensures var next := pos + |BulkOf(dec, args[0])|;
      && next <= |data| && Has(data, next, Bulks(dec, args[1..]))
      && ReadBulk(data, pos) == if |args[0]| <= MAX_BULK then Read(args[0], next) else Broken(TooLarge)
  {
    var d := dec(|args[0]|);
    assert args[0] in args && Writes(d, |args[0]|);
    HasConcat(data, pos, BulkOf(dec, args[0]), Bulks(dec, args[1..]));
    if |args[0]| > MAX_BULK { BulkTooLarge(data, pos, d, args[0]); } else { BulkRead(data, pos, d, args[0]); }
  }

  lemma {:induction false} RestRefused(args: seq<Bytes>)
    requires Announced(args) && !AllFit(args)
    ensures args != [] && Announced(args[1..]) && (|args[0]| <= MAX_BULK ==> !AllFit(args[1..]))
  {
    assert args == [args[0]] + args[1..];
  }

  lemma {:induction false} FailsOn(data: Bytes, pos: nat, next: nat, arg: Bytes, n: nat, done: seq<Bytes>)
    requires n > 0 && pos <= |data| && next <= |data|
    requires ReadBulk(data, pos) == Broken(TooLarge) ||
      (ReadBulk(data, pos) == Read(arg, next) && ReadBulks(data, next, n - 1, done + [arg]) == Failed(TooLarge))
    ensures ReadBulks(data, pos, n, done) == Failed(TooLarge)
  {}

  lemma {:induction false} OneRefused(data: Bytes, pos: nat, dec: nat -> Bytes, first: Bytes, rest: seq<Bytes>,
      done: seq<Bytes>)
    requires Numerals(dec) && Announced(rest) && pos <= |data| && pos + |BulkOf(dec, first)| <= |data|
    requires |first| <= MAX_BULK ==> !AllFit(rest) && Has(data, pos + |BulkOf(dec, first)|, Bulks(dec, rest))
    requires ReadBulk(data, pos) ==
      if |first| <= MAX_BULK then Read(first, pos + |BulkOf(dec, first)|) else Broken(TooLarge)
    ensures ReadBulks(data, pos, |rest| + 1, done) == Failed(TooLarge)
    decreases |rest|, 1
  {
    var next := pos + |BulkOf(dec, first)|;
    if |first| <= MAX_BULK { BulksRefused(data, next, dec, rest, done + [first]); }
    FailsOn(data, pos, next, first, |rest| + 1, done);
  }

  lemma {:induction false} BulksRefused(data: Bytes, pos: nat, dec: nat -> Bytes, args: seq<Bytes>, done: seq<Bytes>)
    requires Numerals(dec) && Announced(args) && !AllFit(args) && Has(data, pos, Bulks(dec, args))
    ensures ReadBulks(data, pos, |args|, done) == Failed(TooLarge)
    decreases |args|, 0
  {
    RestRefused(args);
    FirstStands(data, pos, dec, args);
    OneRefused(data, pos, dec, args[0], args[1..], done);
  }

  lemma {:induction false} HeaderRefused(data: Bytes, d: Bytes, n: nat)
    requires Has(data, 0, [STAR]) && Has(data, 1, d) && Has(data, 1 + |d|, CRLF) && Writes(d, n) && n > MAX_ARGS
    ensures Parse(data) == Failed(TooLarge)
  {
    assert [STAR][0] == STAR;
    NumberLine(data, 1, d);
  }

  lemma {:induction false} CommandRefused(data: Bytes, dec: nat -> Bytes, args: seq<Bytes>)
    requires Numerals(dec) && Announced(args) && !WithinLimits(args) && Has(data, 0, EncodeWith(dec, args))
    ensures Parse(data) == Failed(TooLarge)
  {
    var d := dec(|args|);
    HeaderParts(data, d, Bulks(dec, args));
    assert Writes(d, |args|);
    if |args| > MAX_ARGS {
      HeaderRefused(data, d, |args|);
    } else {
      HeaderRead(data, d, |args|);
      BulksRefused(data, 3 + |d|, dec, args, []);
    }
  }

  /** A command beyond the limits is refused. */
  lemma {:induction false} EncodeRefused(args: seq<Bytes>, after: Bytes)
    requires Announced(args) && !WithinLimits(args)
    ensures Parse(Encode(args) + after) == Failed(TooLarge)
  {
    forall n: nat | n <= I64_MAX ensures Writes(Decimal(n), n) { DecimalWrites(n); }
    CommandRefused(Encode(args) + after, Decimal, args);
  }

  // ----- pipelines ---------------------------------------------------------

  function EncodeAll(commands: seq<seq<Bytes>>): Bytes {
    if commands == [] then [] else Encode(commands[0]) + EncodeAll(commands[1..])
  }

  /** A pipeline of commands, cut into any chunks, yields exactly these commands. */
  lemma {:induction false} PipelineParses(commands: seq<seq<Bytes>>, chunks: seq<Bytes>)
    requires Flatten(chunks) == EncodeAll(commands) && forall c :: c in commands ==> WithinLimits(c) && c != []
    ensures FeedAll([], chunks) == Output(commands, Waiting([]))
  {
    ChunksDoNotMatter([], chunks);
    assert [] + Flatten(chunks) == Flatten(chunks);
    PipelineDrains(commands);
  }

  lemma {:induction false} PipelineDrains(commands: seq<seq<Bytes>>)
    requires forall c :: c in commands ==> WithinLimits(c) && c != []
    ensures Drain(EncodeAll(commands)) == Output(commands, Waiting([]))
  {
    if commands != [] {
      var first, rest := Encode(commands[0]), EncodeAll(commands[1..]);
      assert commands[0] in commands;
      EncodeParses(commands[0], rest);
      assert (first + rest)[|first|..] == rest;
      PipelineDrains(commands[1..]);
      assert [commands[0]] + commands[1..] == commands;
    }
  }
}
