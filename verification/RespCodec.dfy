/** The Redis serialization protocol as the diagnosis adapter speaks it: the command printer and
    the recursive reply reader with its nesting, item, bulk, line and total-size limits.

    `Read` is the reader as a function of the bytes to come and the budget; `RespReader` is the
    reader that consumes a stream and a shared byte budget in place.  Text is kept as bytes. */
module RespCodec {

  import opened Basics
  import opened TextTools

  type Byte = b: int | 0 <= b < 256
  type Bytes = seq<Byte>

  const MAX_BULK_BYTES: nat := 8 * 1024 * 1024
  const MAX_ARRAY_ITEMS: nat := 10_000
  const MAX_DEPTH: nat := 16
  const MAX_TOTAL_BYTES: nat := 16 * 1024 * 1024
  const LINE_LIMIT: nat := 65536        // default limit of an asyncio stream reader
  const MAX_INT_DIGITS: nat := 4300     // default limit of int() on decimal text

  const CR: Byte := 13
  const LF: Byte := 10
  const PLUS: Byte := 43
  const MINUS: Byte := 45
  const COLON: Byte := 58
  const DOLLAR: Byte := 36
  const STAR: Byte := 42
  const UNDERSCORE: Byte := 95
  const CRLF: Bytes := [CR, LF]

  datatype Resp = Str(text: Bytes) | Int(n: int) | Nil | List(items: seq<Resp>)

  datatype Error =
    | NestingLimit | LineTooLarge | ConnectionClosed | TotalLimit | MalformedLine
    | ServerError(text: Bytes) | InvalidLength | BulkTooLarge | MalformedBulk
    | ArrayTooLarge | InvalidInteger | IncompleteRead

  // ------------------------------------------------------------------------------ text

  predicate IsByteSpace(b: Byte) { 9 <= b <= 13 || b == 32 }

  predicate IsTextSpace(b: Byte) { IsByteSpace(b) || 28 <= b <= 31 }

  predicate IsDigit(b: Byte) { 48 <= b <= 57 }

  /** Decimal digits with single underscores between them, as int() accepts them. */
  predicate DigitRun(s: Bytes) {
    && s != [] && IsDigit(s[0]) && IsDigit(s[|s| - 1])
    && (forall i :: 0 <= i < |s| ==> IsDigit(s[i]) || s[i] == UNDERSCORE)
    && (forall i :: 0 < i < |s| ==> IsDigit(s[i - 1]) || IsDigit(s[i]))
  }

  function DigitCount(s: Bytes): nat {
    if s == [] then 0 else DigitCount(s[..|s| - 1]) + if s[|s| - 1] == UNDERSCORE then 0 else 1
  }

  function DigitValue(s: Bytes): int {
    if s == [] then 0
    else if s[|s| - 1] == UNDERSCORE then DigitValue(s[..|s| - 1])
    else 10 * DigitValue(s[..|s| - 1]) + (s[|s| - 1] as int - 48)
  }

  function ParseUnsigned(s: Bytes): Option<int> {
    if DigitRun(s) && DigitCount(s) <= MAX_INT_DIGITS then Some(DigitValue(s)) else None
  }

  function ParseInt(s: Bytes): Option<int> {
    if s != [] && s[0] == MINUS then
      match ParseUnsigned(s[1..]) case Some(n) => Some(-n) case None => None
    else if s != [] && s[0] == PLUS then ParseUnsigned(s[1..])
    else ParseUnsigned(s)
  }

  // ---------------------------------------------------------------------------- reader

  function NewlineAt(s: Bytes): (i: nat)
    ensures i <= |s| && LF !in s[..i]
    ensures i < |s| ==> s[i] == LF
  {
    if s == [] || s[0] == LF then 0
    else
      var i := 1 + NewlineAt(s[1..]);
      assert s[..i] == [s[0]] + s[1..][..i - 1];
      i
  }

  datatype Line = TooLarge | Taken(line: Bytes, rest: Bytes)

  function LineAt(input: Bytes, i: nat): Line
    requires i <= |input|
  {
    if i > LINE_LIMIT then TooLarge
    else if i == |input| then Taken(input, [])
    else Taken(input[..i + 1], input[i + 1..])
  }

  /** A line up to and including the first newline, or what is left when the peer has closed. */
  function ReadLine(input: Bytes): Line { LineAt(input, NewlineAt(input)) }

  predicate EndsCrlf(s: Bytes) { |s| >= 2 && s[|s| - 2..] == CRLF }

  datatype Reading<T> = Ok(value: T, rest: Bytes, left: nat) | Err(error: Error)

  function ReadBulk(rest: Bytes, n: nat, budget: nat): (r: Reading<Resp>)
    ensures r.Ok? ==> r.left + 2 <= budget
  {
    if n > MAX_BULK_BYTES then Err(BulkTooLarge)
    else if n + 2 > budget then Err(TotalLimit)
    else if |rest| < n + 2 then Err(IncompleteRead)
    else if !EndsCrlf(rest[..n + 2]) then Err(MalformedBulk)
    else Ok(Str(rest[..n]), rest[n + 2..], budget - (n + 2))
  }

  /** One reply.  Every frame costs at least two bytes, so the budget bounds the recursion. */
  function Read(input: Bytes, depth: nat, budget: nat): (r: Reading<Resp>)
    ensures r.Ok? ==> r.left + 2 <= budget
    decreases budget, 0
  {
    if depth > MAX_DEPTH then Err(NestingLimit)
    else
      match ReadLine(input)
      case TooLarge => Err(LineTooLarge)
      case Taken(line, rest) =>
        if line == [] then Err(ConnectionClosed)
        else if |line| > budget then Err(TotalLimit)
        else if !EndsCrlf(line) then Err(MalformedLine)
        else ReadFrame(line, rest, depth, budget - |line|)
  }

  /** The rest of a reply whose first line is already taken and paid for. */
  function ReadFrame(line: Bytes, rest: Bytes, depth: nat, left: nat): (r: Reading<Resp>)
    requires EndsCrlf(line)
    ensures r.Ok? ==> r.left <= left
    decreases left, MAX_ARRAY_ITEMS + 2
  {
    var prefix := line[0];
    if prefix == MINUS then Err(ServerError(Trim(line[1..], IsTextSpace)))
    else if prefix == PLUS then Ok(Str(Trim(line[1..], IsTextSpace)), rest, left)
    else if prefix == DOLLAR then
      match ParseInt(Trim(line[1..], IsByteSpace))
      case None => Err(InvalidLength)
      case Some(n) => if n < 0 then Ok(Nil, rest, left) else ReadBulk(rest, n, left)
    else if prefix == STAR then
      match ParseInt(Trim(line[1..], IsByteSpace))
      case None => Err(InvalidLength)
      case Some(n) =>
        if n < 0 then Ok(Nil, rest, left)
        else if n > MAX_ARRAY_ITEMS then Err(ArrayTooLarge)
        else
          match ReadItems(rest, depth + 1, n, left)
          case Err(e) => Err(e)
          case Ok(items, rest', left') => Ok(List(items), rest', left')
    else if prefix == COLON then
      match ParseInt(Trim(line[1..], IsTextSpace))
      case None => Err(InvalidInteger)
      case Some(n) => Ok(Int(n), rest, left)
    else Ok(Str(Trim(line, IsTextSpace)), rest, left)
  }

  function ReadItems(input: Bytes, depth: nat, count: nat, budget: nat): (r: Reading<seq<Resp>>)
    ensures r.Ok? ==> r.left + 2 * count <= budget && |r.value| == count
    decreases budget, 1 + count
  {
    if count == 0 then Ok([], input, budget)
    else
      match Read(input, depth, budget)
      case Err(e) => Err(e)
      case Ok(first, rest, left) =>
        Prepend([first], ReadItems(rest, depth, count - 1, left))
  }

  function Prepend(items: seq<Resp>, r: Reading<seq<Resp>>): Reading<seq<Resp>> {
    match r case Ok(v, rest, left) => Ok(items + v, rest, left) case Err(e) => Err(e)
  }

  lemma PrependBoth(items: seq<Resp>, v: Resp, r: Reading<seq<Resp>>)
    ensures Prepend(items, Prepend([v], r)) == Prepend(items + [v], r)
    ensures Prepend([], r) == r
  {
    if r.Ok? {
      assert items + ([v] + r.value) == (items + [v]) + r.value;
      assert [] + r.value == r.value;
    }
  }

  datatype Reply<T> = Got(value: T) | Failed(error: Error)

  /** The reader over a live stream: it consumes the stream and the byte budget in place. */
  class RespReader {
    var stream: Bytes
    var remainingBytes: int

    constructor (stream: Bytes, remainingBytes: nat)
      ensures this.stream == stream && this.remainingBytes == remainingBytes
    {
      this.stream, this.remainingBytes := stream, remainingBytes;
    }

    method ConsumeRespBytes(amount: nat) returns (ok: bool)
      modifies this`remainingBytes
      ensures remainingBytes == old(remainingBytes) - amount && ok == (remainingBytes >= 0)
    {
      remainingBytes := remainingBytes - amount;
      ok := remainingBytes >= 0;
    }

    method ReadBulkBody(n: nat) returns (r: Reply<Resp>)
      requires remainingBytes >= 0
      modifies this
      ensures match ReadBulk(old(stream), n, old(remainingBytes))
              case Ok(v, rest, left) => r == Got(v) && stream == rest && remainingBytes == left
              case Err(e) => r == Failed(e)
    {
      if n > MAX_BULK_BYTES {
        return Failed(BulkTooLarge);
      }
      var within := ConsumeRespBytes(n + 2);
      if !within {
        return Failed(TotalLimit);
      }
      if |stream| < n + 2 {
        return Failed(IncompleteRead);
      }
      var data := stream[..n + 2];
      stream := stream[n + 2..];
      if !EndsCrlf(data) {
        return Failed(MalformedBulk);
      }
      assert data[..n] == old(stream)[..n];
      return Got(Str(data[..n]));
    }

    method ReadResp(depth: nat) returns (r: Reply<Resp>)
      requires remainingBytes >= 0
      modifies this
      ensures match Read(old(stream), depth, old(remainingBytes))
              case Ok(v, rest, left) => r == Got(v) && stream == rest && remainingBytes == left
              case Err(e) => r == Failed(e)
      decreases remainingBytes, 0
    {
      if depth > MAX_DEPTH {
        return Failed(NestingLimit);
      }
      var taken := ReadLine(stream);
      if taken.TooLarge? {
        return Failed(LineTooLarge);
      }
      var line := taken.line;
      stream := taken.rest;
      if line == [] {
        return Failed(ConnectionClosed);
      }
      var within := ConsumeRespBytes(|line|);
      if !within {
        return Failed(TotalLimit);
      }
      if !EndsCrlf(line) {
        return Failed(MalformedLine);
      }
      r := ReadFrameBody(line, depth);
    }

    method ReadFrameBody(line: Bytes, depth: nat) returns (r: Reply<Resp>)
      requires remainingBytes >= 0 && EndsCrlf(line)
      modifies this
      ensures match ReadFrame(line, old(stream), depth, old(remainingBytes))
              case Ok(v, rest, left) => r == Got(v) && stream == rest && remainingBytes == left
              case Err(e) => r == Failed(e)
      decreases remainingBytes, 2
    {
      var prefix := line[0];
      if prefix == MINUS {
        return Failed(ServerError(Trim(line[1..], IsTextSpace)));
      }
      if prefix == PLUS {
        return Got(Str(Trim(line[1..], IsTextSpace)));
      }
      if prefix == DOLLAR {
        var length := ParseInt(Trim(line[1..], IsByteSpace));
        if length.None? {
          return Failed(InvalidLength);
        }
        if length.value < 0 {
          return Got(Nil);
        }
        r := ReadBulkBody(length.value);
        return;
      }
      if prefix == STAR {
        var count := ParseInt(Trim(line[1..], IsByteSpace));
        if count.None? {
          return Failed(InvalidLength);
        }
        if count.value < 0 {
          return Got(Nil);
        }
        if count.value > MAX_ARRAY_ITEMS {
          return Failed(ArrayTooLarge);
        }
        var list := ReadArrayItems(depth + 1, count.value);
        return match list case Got(items) => Got(List(items)) case Failed(e) => Failed(e);
      }
      if prefix == COLON {
        var n := ParseInt(Trim(line[1..], IsTextSpace));
        return if n.None? then Failed(InvalidInteger) else Got(Int(n.value));
      }
      return Got(Str(Trim(line, IsTextSpace)));
    }

    method ReadArrayItems(depth: nat, count: nat) returns (r: Reply<seq<Resp>>)
      requires remainingBytes >= 0
      modifies this
      ensures match ReadItems(old(stream), depth, count, old(remainingBytes))
              case Ok(v, rest, left) => r == Got(v) && stream == rest && remainingBytes == left
              case Err(e) => r == Failed(e)
      decreases remainingBytes, 1
    {
      var items: seq<Resp> := [];
      var i := 0;
      ghost var whole := ReadItems(stream, depth, count, remainingBytes);
      PrependBoth([], Nil, whole);
      while i < count
        invariant 0 <= i <= count && 0 <= remainingBytes <= old(remainingBytes)
        invariant whole == Prepend(items, ReadItems(stream, depth, count - i, remainingBytes))
        decreases count - i
      {
        var item := ReadResp(depth);
        if item.Failed? {
          return Failed(item.error);
        }
        PrependBoth(items, item.value, ReadItems(stream, depth, count - i - 1, remainingBytes));
        items := items + [item.value];
        i := i + 1;
      }
      assert items + [] == items;
      return Got(items);
    }
  }

  // ------------------------------------------------------------- the wire format (RESP2)

  /** A value as RESP2 puts it on the wire. */
  datatype Wire =
    | SimpleString(text: Bytes) | ErrorString(text: Bytes) | Integer(n: int)
    | BulkString(data: Bytes) | NullBulk | Array(items: seq<Wire>) | NullArray

  function Digits(n: nat): Bytes {
    if n < 10 then [48 + n] else Digits(n / 10) + [48 + n % 10]
  }

  function Decimal(n: int): Bytes { if n < 0 then [MINUS] + Digits(-n) else Digits(n) }

  function Header(prefix: Byte, n: int): Bytes { [prefix] + Decimal(n) + CRLF }

  /** The RESP2 encoding of a value. */
  function Encode(w: Wire): Bytes
    decreases w, 0
  {
    match w
    case SimpleString(t) => [PLUS] + t + CRLF
    case ErrorString(t) => [MINUS] + t + CRLF
    case Integer(n) => Header(COLON, n)
    case BulkString(d) => Header(DOLLAR, |d|) + (d + CRLF)
    case NullBulk => Header(DOLLAR, -1)
    case Array(ws) => Header(STAR, |ws|) + EncodeAll(ws)
    case NullArray => Header(STAR, -1)
  }

  function EncodeAll(ws: seq<Wire>): Bytes
    decreases ws, 1
  {
    if ws == [] then [] else Encode(ws[0]) + EncodeAll(ws[1..])
  }

  function Meaning(w: Wire): Resp
    decreases w, 0
  {
    match w
    case SimpleString(t) => Str(t)
    case ErrorString(t) => Str(t)
    case Integer(n) => Int(n)
    case BulkString(d) => Str(d)
    case NullBulk => Nil
    case Array(ws) => List(MeaningAll(ws))
    case NullArray => Nil
  }

  function MeaningAll(ws: seq<Wire>): (r: seq<Resp>)
    ensures |r| == |ws|
    decreases ws, 1
  {
    if ws == [] then [] else [Meaning(ws[0])] + MeaningAll(ws[1..])
  }

  predicate OneLine(t: Bytes) { CR !in t && LF !in t }

  /** RESP2 allows neither carriage return nor newline inside a simple string or an error. */
  predicate WellFormed(w: Wire)
    decreases w, 0
  {
    match w
    case SimpleString(t) => OneLine(t)
    case ErrorString(t) => OneLine(t)
    case Array(ws) => WellFormedAll(ws)
    case _ => true
  }

  predicate WellFormedAll(ws: seq<Wire>)
    decreases ws, 1
  {
    ws == [] || (WellFormed(ws[0]) && WellFormedAll(ws[1..]))
  }

  /** What the reader accepts of a value at a nesting depth, apart from the byte budget. */
  predicate Readable(w: Wire, depth: nat)
    decreases w, 0
  {
    && depth <= MAX_DEPTH
    && match w
       case SimpleString(t) => Trim(t, IsTextSpace) == t && |t| + 2 <= LINE_LIMIT
       case ErrorString(t) => false
       case Integer(n) => |Digits(Abs(n))| <= MAX_INT_DIGITS
       case BulkString(d) => |d| <= MAX_BULK_BYTES
       case Array(ws) => |ws| <= MAX_ARRAY_ITEMS && ReadableAll(ws, depth + 1)
       case _ => true
  }

  predicate ReadableAll(ws: seq<Wire>, depth: nat)
    decreases ws, 1
  {
    ws == [] || (Readable(ws[0], depth) && ReadableAll(ws[1..], depth))
  }

  function Abs(n: int): nat { if n < 0 then -n else n }

  // --------------------------------------------------------------------- text round trips

  lemma {:induction false} TrimLeftAppend(t: Bytes, tail: Bytes, space: Byte -> bool)
    ensures TrimLeft(t + tail, space)
         == if TrimLeft(t, space) == [] then TrimLeft(tail, space) else TrimLeft(t, space) + tail
  {
    if t == [] {
      assert t + tail == tail;
    } else {
      assert (t + tail)[1..] == t[1..] + tail;
      TrimLeftAppend(t[1..], tail, space);
    }
  }

  /** The line terminator is white space to both strips. */
  lemma TrimCrlf(t: Bytes, space: Byte -> bool)
    requires space(CR) && space(LF)
    ensures Trim(t + CRLF, space) == Trim(t, space)
  {
    TrimLeftAppend(t, CRLF, space);
    var u := TrimLeft(t, space);
    assert CRLF[1..] == [LF] && [LF][1..] == [];
    if u == [] {
      assert TrimLeft([LF], space) == [];
      assert TrimLeft(CRLF, space) == TrimLeft([LF], space);
    } else {
      var v := u + CRLF;
      assert v[..|v| - 1] == u + [CR] && (u + [CR])[..|u|] == u;
      assert TrimRight(v, space) == TrimRight(u + [CR], space) == TrimRight(u, space);
    }
  }

  lemma {:induction false} DecimalDigits(n: nat)
    ensures Digits(n) != [] && (forall i :: 0 <= i < |Digits(n)| ==> IsDigit(Digits(n)[i]))
    ensures DigitValue(Digits(n)) == n && DigitCount(Digits(n)) == |Digits(n)|
  {
    if n >= 10 {
      DecimalDigits(n / 10);
      assert Digits(n)[..|Digits(n)| - 1] == Digits(n / 10);
    } else {
      assert Digits(n)[..0] == [];
    }
  }

  /** Printing a number and parsing it back is the identity, up to int()'s limit on digits. */
  lemma ParseDecimal(n: int)
    ensures ParseInt(Decimal(n)) == if |Digits(Abs(n))| <= MAX_INT_DIGITS then Some(n) else None
  {
    DecimalDigits(Abs(n));
    assert n < 0 ==> Decimal(n)[1..] == Digits(-n);
  }

  lemma DecimalIsText(n: int)
    ensures Decimal(n) != [] && forall i :: 0 <= i < |Decimal(n)| ==> IsDigit(Decimal(n)[i]) || Decimal(n)[i] == MINUS
  {
    DecimalDigits(Abs(n));
  }

  lemma {:induction false} FirstDigit(n: nat)
    ensures Digits(n) != [] && IsDigit(Digits(n)[0]) && (Digits(n)[0] == 48 <==> n == 0)
  {
    if n >= 10 {
      FirstDigit(n / 10);
    }
  }

  /** Only a negative number is printed with a sign, and only zero with a leading zero. */
  lemma PrintsPlainly(n: int)
    ensures Decimal(n) != [] && (Decimal(n)[0] == MINUS <==> n < 0) && (Decimal(n)[0] == 48 <==> n == 0)
  {
    FirstDigit(Abs(n));
  }

  /** The printed number, once its line terminator is stripped. */
  lemma DecimalStripped(n: int, space: Byte -> bool)
    requires space(CR) && space(LF) && forall b :: IsDigit(b) || b == MINUS ==> !space(b)
    ensures Trim(Decimal(n) + CRLF, space) == Decimal(n)
  {
    var t := Decimal(n);
    DecimalIsText(n);
    TrimCrlf(t, space);
    assert !space(t[0]) && !space(t[|t| - 1]);
  }

  function Pow10(k: nat): nat { if k == 0 then 1 else 10 * Pow10(k - 1) }

  lemma {:induction false} ShortDigits(n: nat, k: nat)
    requires k >= 1 && n < Pow10(k)
    ensures |Digits(n)| <= k
  {
    if n >= 10 {
      assert k >= 2 && n / 10 < Pow10(k - 1);
      ShortDigits(n / 10, k - 1);
    }
  }

  lemma SizesAreShort(n: nat)
    requires n <= MAX_BULK_BYTES || n <= MAX_ARRAY_ITEMS
    ensures |Digits(n)| <= 7
  {
    assert Pow10(7) == 10 * Pow10(6) && Pow10(6) == 10 * Pow10(5) && Pow10(5) == 10 * Pow10(4);
    assert Pow10(4) == 10_000;
    ShortDigits(n, 7);
  }

  // --------------------------------------------------------------------- frame round trips

  lemma NewlineUnique(s: Bytes, i: nat)
    requires i < |s| && s[i] == LF && LF !in s[..i]
    ensures NewlineAt(s) == i
  {
    var j := NewlineAt(s);
    forall k | 0 <= k < i ensures s[k] != LF {
      assert s[..i][k] == s[k];
    }
    forall k | 0 <= k < j ensures s[k] != LF {
      assert s[..j][k] == s[k];
    }
  }

  /** How the reader opens a reply whose first line is `t`. */
  lemma ReadFirstLine(t: Bytes, rest: Bytes, depth: nat, budget: nat)
    requires t != [] && LF !in t
    ensures Read((t + CRLF) + rest, depth, budget)
         == if depth > MAX_DEPTH then Err(NestingLimit)
            else if |t| + 1 > LINE_LIMIT then Err(LineTooLarge)
            else if |t| + 2 > budget then Err(TotalLimit)
            else ReadFrame(t + CRLF, rest, depth, budget - (|t| + 2))
  {
    var input := (t + CRLF) + rest;
    assert input[..|t| + 1] == t + [CR] && input[|t| + 1] == LF;
    NewlineUnique(input, |t| + 1);
    assert input[..|t| + 2] == t + CRLF && input[|t| + 2..] == rest;
    assert (t + CRLF)[|t|..] == CRLF;
  }

  /** What reading an encoding must yield: the meaning and exactly the rest, at exactly its cost —
      or, for a value the reader does not accept, an error or a different value. */
  predicate Faithful(r: Reading<Resp>, w: Wire, rest: Bytes, depth: nat, budget: nat) {
    if Readable(w, depth) && |Encode(w)| <= budget
    then r == Ok(Meaning(w), rest, budget - |Encode(w)|)
    else r.Err? || r.value != Meaning(w)
  }

  lemma ReadText(w: Wire, rest: Bytes, depth: nat, budget: nat)
    requires (w.SimpleString? || w.ErrorString?) && WellFormed(w)
    ensures Faithful(Read(Encode(w) + rest, depth, budget), w, rest, depth, budget)
  {
    var t := [if w.SimpleString? then PLUS else MINUS] + w.text;
    ReadFirstLine(t, rest, depth, budget);
    assert (t + CRLF)[1..] == w.text + CRLF;
    TrimCrlf(w.text, IsTextSpace);
  }

  /** A frame whose header carries the number `n`. */
  function NumberFrame(prefix: Byte, n: int, rest: Bytes, depth: nat, left: nat): Reading<Resp> {
    if |Digits(Abs(n))| > MAX_INT_DIGITS then Err(if prefix == COLON then InvalidInteger else InvalidLength)
    else if prefix == COLON then Ok(Int(n), rest, left)
    else if n < 0 then Ok(Nil, rest, left)
    else if prefix == DOLLAR then ReadBulk(rest, n, left)
    else if n > MAX_ARRAY_ITEMS then Err(ArrayTooLarge)
    else
      match ReadItems(rest, depth + 1, n, left)
      case Err(e) => Err(e)
      case Ok(items, rest', left') => Ok(List(items), rest', left')
  }

  lemma FrameNumber(prefix: Byte, n: int, rest: Bytes, depth: nat, left: nat)
    requires prefix == COLON || prefix == DOLLAR || prefix == STAR
    requires EndsCrlf(Header(prefix, n))
    ensures ReadFrame(Header(prefix, n), rest, depth, left) == NumberFrame(prefix, n, rest, depth, left)
  {
    assert Header(prefix, n)[1..] == Decimal(n) + CRLF;
    ParseDecimal(n);
    DecimalStripped(n, if prefix == COLON then IsTextSpace else IsByteSpace);
  }

  lemma ReadNumber(prefix: Byte, n: int, rest: Bytes, depth: nat, budget: nat)
    requires prefix == COLON || prefix == DOLLAR || prefix == STAR
    ensures Read(Header(prefix, n) + rest, depth, budget)
         == if depth > MAX_DEPTH then Err(NestingLimit)
            else if |Decimal(n)| + 2 > LINE_LIMIT then Err(LineTooLarge)
            else if |Header(prefix, n)| > budget then Err(TotalLimit)
            else NumberFrame(prefix, n, rest, depth, budget - |Header(prefix, n)|)
  {
    var header := Header(prefix, n);
    DecimalIsText(n);
    ReadFirstLine([prefix] + Decimal(n), rest, depth, budget);
    assert header[|Decimal(n)| + 1..] == CRLF;
    if |header| <= budget {
      FrameNumber(prefix, n, rest, depth, budget - |header|);
    }
  }

  lemma ReadInteger(w: Wire, rest: Bytes, depth: nat, budget: nat)
    requires w.Integer? || w.NullBulk? || w.NullArray?
    ensures Faithful(Read(Encode(w) + rest, depth, budget), w, rest, depth, budget)
  {
    var n := if w.Integer? then w.n else -1;
    var prefix: Byte := if w.Integer? then COLON else if w.NullBulk? then DOLLAR else STAR;
    assert Encode(w) == Header(prefix, n);
    ReadNumber(prefix, n, rest, depth, budget);
    assert |Digits(1)| == 1;
  }

  lemma BulkBody(d: Bytes, rest: Bytes, left: nat)
    ensures ReadBulk((d + CRLF) + rest, |d|, left)
         == if |d| > MAX_BULK_BYTES then Err(BulkTooLarge)
            else if |d| + 2 > left then Err(TotalLimit)
            else Ok(Str(d), rest, left - (|d| + 2))
  {
    var body := d + CRLF;
    assert (body + rest)[..|d| + 2] == body && (body + rest)[|d| + 2..] == rest;
    assert (body + rest)[..|d|] == d && body[|d|..] == CRLF;
  }

  lemma ReadBulkString(w: Wire, rest: Bytes, depth: nat, budget: nat)
    requires w.BulkString?
    ensures Faithful(Read(Encode(w) + rest, depth, budget), w, rest, depth, budget)
  {
    var d := w.data;
    var header, body := Header(DOLLAR, |d|), d + CRLF;
    assert Encode(w) + rest == header + (body + rest);
    ReadNumber(DOLLAR, |d|, body + rest, depth, budget);
    if |d| <= MAX_BULK_BYTES {
      SizesAreShort(|d|);
    }
    if |header| <= budget {
      BulkBody(d, rest, budget - |header|);
    }
  }

  predicate ItemsFaithful(r: Reading<seq<Resp>>, ws: seq<Wire>, rest: Bytes, depth: nat, budget: nat) {
    if ReadableAll(ws, depth) && |EncodeAll(ws)| <= budget
    then r == Ok(MeaningAll(ws), rest, budget - |EncodeAll(ws)|)
    else r.Err? || r.value != MeaningAll(ws)
  }

  function Left(budget: nat, cost: nat): nat { if cost <= budget then budget - cost else 0 }

  lemma ArrayFrame(ws: seq<Wire>, rest: Bytes, depth: nat, left: nat)
    requires ItemsFaithful(ReadItems(EncodeAll(ws) + rest, depth + 1, |ws|, left), ws, rest, depth + 1, left)
    ensures var r := NumberFrame(STAR, |ws|, EncodeAll(ws) + rest, depth, left);
      if |ws| <= MAX_ARRAY_ITEMS && ReadableAll(ws, depth + 1) && |EncodeAll(ws)| <= left
      then r == Ok(List(MeaningAll(ws)), rest, left - |EncodeAll(ws)|)
      else r.Err? || r.value != List(MeaningAll(ws))
  {
    if |ws| <= MAX_ARRAY_ITEMS {
      SizesAreShort(|ws|);
    }
  }

  lemma ReadArrayBytes(ws: seq<Wire>, rest: Bytes, depth: nat, budget: nat)
    requires var left := Left(budget, |Header(STAR, |ws|)|);
      ItemsFaithful(ReadItems(EncodeAll(ws) + rest, depth + 1, |ws|, left), ws, rest, depth + 1, left)
    ensures var header := Header(STAR, |ws|);
      var r := Read(header + (EncodeAll(ws) + rest), depth, budget);
      if depth <= MAX_DEPTH && |ws| <= MAX_ARRAY_ITEMS && ReadableAll(ws, depth + 1)
        && |header| + |EncodeAll(ws)| <= budget
      then r == Ok(List(MeaningAll(ws)), rest, budget - (|header| + |EncodeAll(ws)|))
      else r.Err? || r.value != List(MeaningAll(ws))
  {
    ReadNumber(STAR, |ws|, EncodeAll(ws) + rest, depth, budget);
    ArrayFrame(ws, rest, depth, Left(budget, |Header(STAR, |ws|)|));
    if |ws| <= MAX_ARRAY_ITEMS {
      SizesAreShort(|ws|);
    }
  }

  lemma ArrayWire(ws: seq<Wire>, depth: nat)
    ensures Encode(Array(ws)) == Header(STAR, |ws|) + EncodeAll(ws) && Meaning(Array(ws)) == List(MeaningAll(ws))
    ensures Readable(Array(ws), depth) <==> depth <= MAX_DEPTH && |ws| <= MAX_ARRAY_ITEMS && ReadableAll(ws, depth + 1)
  {
  }

  lemma ReadArray(ws: seq<Wire>, rest: Bytes, depth: nat, budget: nat)
    requires var left := Left(budget, |Header(STAR, |ws|)|);
      ItemsFaithful(ReadItems(EncodeAll(ws) + rest, depth + 1, |ws|, left), ws, rest, depth + 1, left)
    ensures Faithful(Read(Encode(Array(ws)) + rest, depth, budget), Array(ws), rest, depth, budget)
  {
    ReadArrayBytes(ws, rest, depth, budget);
    ArrayWire(ws, depth);
    var header, items := Header(STAR, |ws|), EncodeAll(ws);
    assert (header + items) + rest == header + (items + rest);
  }

  lemma PrependFaithful(w: Wire, v: Resp, ws: seq<Wire>, r: Reading<seq<Resp>>)
    ensures MeaningAll([w] + ws) == [Meaning(w)] + MeaningAll(ws)
    ensures Prepend([v], r).Ok? ==>
              (Prepend([v], r).value == MeaningAll([w] + ws) <==> v == Meaning(w) && r.value == MeaningAll(ws))
  {
    assert ([w] + ws)[1..] == ws;
    if r.Ok? {
      var vs := [v] + r.value;
      var ms := [Meaning(w)] + MeaningAll(ws);
      assert vs[0] == v && vs[1..] == r.value && ms[0] == Meaning(w) && ms[1..] == MeaningAll(ws);
    }
  }

  lemma EncodeCons(w: Wire, ws: seq<Wire>, rest: Bytes)
    ensures EncodeAll([w] + ws) == Encode(w) + EncodeAll(ws)
    ensures EncodeAll([w] + ws) + rest == Encode(w) + (EncodeAll(ws) + rest)
    ensures forall d: nat :: ReadableAll([w] + ws, d) <==> Readable(w, d) && ReadableAll(ws, d)
  {
    assert ([w] + ws)[1..] == ws;
    assert (Encode(w) + EncodeAll(ws)) + rest == Encode(w) + (EncodeAll(ws) + rest);
  }

  lemma ReadSeveral(w: Wire, ws: seq<Wire>, rest: Bytes, depth: nat, budget: nat)
    requires var tail := EncodeAll(ws) + rest;
      Faithful(Read(Encode(w) + tail, depth, budget), w, tail, depth, budget)
    requires var left := Left(budget, |Encode(w)|);
      ItemsFaithful(ReadItems(EncodeAll(ws) + rest, depth, |ws|, left), ws, rest, depth, left)
    ensures ItemsFaithful(ReadItems(EncodeAll([w] + ws) + rest, depth, |ws| + 1, budget), [w] + ws, rest, depth, budget)
  {
    EncodeCons(w, ws, rest);
    var r := Read(Encode(w) + (EncodeAll(ws) + rest), depth, budget);
    if r.Ok? {
      PrependFaithful(w, r.value, ws, ReadItems(r.rest, depth, |ws|, r.left));
    }
  }

  /** RESP2 round trip with its exact limits: over every well-formed value tree, at every depth,
      with every budget and every following bytes. */
  lemma {:induction false} RoundTrip(w: Wire, rest: Bytes, depth: nat, budget: nat)
    requires WellFormed(w)
    ensures Faithful(Read(Encode(w) + rest, depth, budget), w, rest, depth, budget)
    decreases w, 0
  {
    match w
    case SimpleString(_) => ReadText(w, rest, depth, budget);
    case ErrorString(_) => ReadText(w, rest, depth, budget);
    case Integer(_) => ReadInteger(w, rest, depth, budget);
    case NullBulk => ReadInteger(w, rest, depth, budget);
    case NullArray => ReadInteger(w, rest, depth, budget);
    case BulkString(_) => ReadBulkString(w, rest, depth, budget);
    case Array(ws) =>
      var header := Header(STAR, |ws|);
      RoundTripAll(ws, rest, depth + 1, Left(budget, |header|));
      ReadArray(ws, rest, depth, budget);
  }

  lemma {:induction false} RoundTripAll(ws: seq<Wire>, rest: Bytes, depth: nat, budget: nat)
    requires WellFormedAll(ws)
    ensures ItemsFaithful(ReadItems(EncodeAll(ws) + rest, depth, |ws|, budget), ws, rest, depth, budget)
    decreases ws, 1
  {
    if ws == [] {
      assert EncodeAll(ws) + rest == rest;
    } else {
      var w, others := ws[0], ws[1..];
      RoundTrip(w, EncodeAll(others) + rest, depth, budget);
      RoundTripAll(others, rest, depth, Left(budget, |Encode(w)|));
      ReadSeveral(w, others, rest, depth, budget);
      assert [w] + others == ws;
    }
  }

  // --------------------------------------------------------------------------- commands

  function Bulks(parts: seq<Bytes>): (ws: seq<Wire>)
    ensures |ws| == |parts|
  {
    if parts == [] then [] else [BulkString(parts[0])] + Bulks(parts[1..])
  }

  function Texts(parts: seq<Bytes>): (vs: seq<Resp>)
    ensures |vs| == |parts|
  {
    if parts == [] then [] else [Str(parts[0])] + Texts(parts[1..])
  }

  lemma {:induction false} BulksAreReadable(parts: seq<Bytes>, depth: nat)
    requires depth <= MAX_DEPTH
    ensures WellFormedAll(Bulks(parts)) && MeaningAll(Bulks(parts)) == Texts(parts)
    ensures ReadableAll(Bulks(parts), depth) <==> forall p :: p in parts ==> |p| <= MAX_BULK_BYTES
  {
    if parts != [] {
      BulksAreReadable(parts[1..], depth);
      assert Bulks(parts)[1..] == Bulks(parts[1..]);
      assert forall p :: p in parts <==> p == parts[0] || p in parts[1..];
    }
  }

  /** The command a client sends: an array of bulk strings. */
  function Command(parts: seq<Bytes>): Bytes { Encode(Array(Bulks(parts))) }

  lemma {:induction false} EncodeAllSnoc(parts: seq<Bytes>, p: Bytes)
    ensures EncodeAll(Bulks(parts + [p])) == EncodeAll(Bulks(parts)) + Encode(BulkString(p))
  {
    if parts == [] {
      assert parts + [p] == [p] && Bulks([p]) == [BulkString(p)];
      assert Bulks([p])[1..] == [];
      assert EncodeAll(Bulks([p])) == Encode(BulkString(p)) + [];
    } else {
      assert (parts + [p])[1..] == parts[1..] + [p];
      EncodeAllSnoc(parts[1..], p);
      assert Bulks(parts + [p])[1..] == Bulks(parts[1..] + [p]);
      assert Bulks(parts)[1..] == Bulks(parts[1..]);
    }
  }

  lemma PayloadStep(payload: Bytes, parts: seq<Bytes>, i: nat)
    requires i < |parts| && payload == Header(STAR, |parts|) + EncodeAll(Bulks(parts[..i]))
    ensures payload + Header(DOLLAR, |parts[i]|) + parts[i] + CRLF
         == Header(STAR, |parts|) + EncodeAll(Bulks(parts[..i + 1]))
  {
    assert parts[..i + 1] == parts[..i] + [parts[i]];
    EncodeAllSnoc(parts[..i], parts[i]);
    PayloadGrows(Header(STAR, |parts|), EncodeAll(Bulks(parts[..i])), Header(DOLLAR, |parts[i]|), parts[i]);
    assert Encode(BulkString(parts[i])) == Header(DOLLAR, |parts[i]|) + (parts[i] + CRLF);
  }

  lemma PayloadGrows(start: Bytes, items: Bytes, header: Bytes, text: Bytes)
    ensures start + items + header + text + CRLF == start + (items + (header + (text + CRLF)))
  {
  }

  method EncodeResp(parts: seq<Bytes>) returns (payload: Bytes)
    ensures payload == Command(parts)
  {
    payload := Header(STAR, |parts|);
    var i := 0;
    assert payload == payload + EncodeAll(Bulks(parts[..0]));
    while i < |parts|
      invariant 0 <= i <= |parts|
      invariant payload == Header(STAR, |parts|) + EncodeAll(Bulks(parts[..i]))
    {
      PayloadStep(payload, parts, i);
      payload := payload + Header(DOLLAR, |parts[i]|) + parts[i] + CRLF;
      i := i + 1;
    }
    assert parts[..|parts|] == parts;
  }

  /** Reading a printed command gives back exactly its parts and leaves exactly what followed,
      if and only if it is within the item, bulk and total limits. */
  lemma CommandRoundTrip(parts: seq<Bytes>, rest: Bytes)
    ensures Read(Command(parts) + rest, 0, MAX_TOTAL_BYTES)
              == Ok(List(Texts(parts)), rest, Abs(MAX_TOTAL_BYTES - |Command(parts)|))
       <==> && |parts| <= MAX_ARRAY_ITEMS && |Command(parts)| <= MAX_TOTAL_BYTES
            && forall p :: p in parts ==> |p| <= MAX_BULK_BYTES
  {
    BulksAreReadable(parts, 1);
    RoundTrip(Array(Bulks(parts)), rest, 0, MAX_TOTAL_BYTES);
  }

  // -------------------------------------------------------------------------- framing

  /** The reading took a prefix of the input and charged exactly its length to the budget. */
  predicate Charged<T>(r: Reading<T>, input: Bytes, budget: nat) {
    r.Ok? ==>
      && |r.rest| <= |input| && r.rest == input[|input| - |r.rest|..]
      && budget - r.left == |input| - |r.rest|
  }

  lemma ChargedTwice<T>(r: Reading<T>, input: Bytes, k: nat, budget: nat)
    requires k <= |input| && k <= budget && Charged(r, input[k..], budget - k)
    ensures Charged(r, input, budget)
  {
    if r.Ok? {
      var m := |input| - |r.rest|;
      assert input[k..][m - k..] == input[m..];
    }
  }

  lemma LineCut(input: Bytes)
    requires ReadLine(input).Taken?
    ensures |ReadLine(input).line| <= |input|
    ensures ReadLine(input).rest == input[|ReadLine(input).line|..]
  {
  }

  /** Whatever the bytes, an accepted reply lowers the budget by exactly the bytes it consumed. */
  lemma {:induction false} ReadCharges(input: Bytes, depth: nat, budget: nat)
    ensures Charged(Read(input, depth, budget), input, budget)
    decreases budget, 0
  {
    var r := Read(input, depth, budget);
    if r.Ok? {
      LineCut(input);
      var line := ReadLine(input).line;
      var k := |line|;
      assert r == ReadFrame(line, input[k..], depth, budget - k);
      FrameCharges(line, input[k..], depth, budget - k);
      ChargedTwice(r, input, k, budget);
    }
  }

  lemma {:induction false} FrameCharges(line: Bytes, rest: Bytes, depth: nat, left: nat)
    requires EndsCrlf(line)
    ensures Charged(ReadFrame(line, rest, depth, left), rest, left)
    decreases left, MAX_ARRAY_ITEMS + 2
  {
    if line[0] == STAR {
      var n := ParseInt(Trim(line[1..], IsByteSpace));
      if n.Some? && 0 <= n.value <= MAX_ARRAY_ITEMS {
        ItemsCharge(rest, depth + 1, n.value, left);
      }
    }
  }

  lemma {:induction false} ItemsCharge(input: Bytes, depth: nat, count: nat, budget: nat)
    ensures Charged(ReadItems(input, depth, count, budget), input, budget)
    decreases budget, 1 + count
  {
    var items := ReadItems(input, depth, count, budget);
    if count > 0 && items.Ok? {
      ReadCharges(input, depth, budget);
      var r := Read(input, depth, budget);
      var k := |input| - |r.rest|;
      var others := ReadItems(input[k..], depth, count - 1, r.left);
      ItemsCharge(input[k..], depth, count - 1, r.left);
      ChargedTwice(others, input, k, budget);
      assert items == Prepend([r.value], others);
    }
  }

  lemma NewlineExtends(s: Bytes, more: Bytes)
    requires NewlineAt(s) < |s|
    ensures NewlineAt(s + more) == NewlineAt(s)
  {
    var i := NewlineAt(s);
    assert (s + more)[..i] == s[..i];
    NewlineUnique(s + more, i);
  }

  lemma UnterminatedLine(s: Bytes)
    requires NewlineAt(s) == |s|
    ensures !EndsCrlf(s)
  {
    if |s| >= 2 {
      assert s[..|s|] == s && s[|s| - 1] in s;
      assert s[|s| - 2..][1] == s[|s| - 1] != LF;
    }
  }

  lemma SplitExtends(s: Bytes, more: Bytes, k: nat)
    requires k <= |s|
    ensures (s + more)[..k] == s[..k] && (s + more)[k..] == s[k..] + more
  {
  }

  function Extended(l: Line, more: Bytes): Line {
    match l case TooLarge => TooLarge case Taken(line, rest) => Taken(line, rest + more)
  }

  lemma LineAtExtends(input: Bytes, more: Bytes, i: nat)
    requires i < |input|
    ensures LineAt(input + more, i) == Extended(LineAt(input, i), more)
  {
    SplitExtends(input, more, i + 1);
  }

  lemma LineExtends(input: Bytes, more: Bytes)
    requires NewlineAt(input) < |input|
    ensures ReadLine(input + more) == Extended(ReadLine(input), more)
  {
    NewlineExtends(input, more);
    LineAtExtends(input, more, NewlineAt(input));
  }

  /** Replies are self-delimiting: bytes that arrive after a complete reply change nothing in it. */
  lemma {:induction false} ReadExtends(input: Bytes, more: Bytes, depth: nat, budget: nat)
    requires Read(input, depth, budget).Ok?
    ensures var r := Read(input, depth, budget);
            Read(input + more, depth, budget) == Ok(r.value, r.rest + more, r.left)
    decreases budget, 0
  {
    if NewlineAt(input) == |input| {
      UnterminatedLine(input);
    }
    LineExtends(input, more);
    var Taken(line, rest) := ReadLine(input);
    FrameExtends(line, rest, more, depth, budget - |line|);
  }

  lemma {:induction false} FrameExtends(line: Bytes, rest: Bytes, more: Bytes, depth: nat, left: nat)
    requires EndsCrlf(line) && ReadFrame(line, rest, depth, left).Ok?
    ensures var r := ReadFrame(line, rest, depth, left);
            ReadFrame(line, rest + more, depth, left) == Ok(r.value, r.rest + more, r.left)
    decreases left, MAX_ARRAY_ITEMS + 2
  {
    if line[0] == DOLLAR || line[0] == STAR {
      var n := ParseInt(Trim(line[1..], IsByteSpace)).value;
      if n >= 0 {
        if line[0] == DOLLAR {
          SplitExtends(rest, more, n);
          SplitExtends(rest, more, n + 2);
        } else {
          ItemsExtend(rest, more, depth + 1, n, left);
        }
      }
    }
  }

  lemma {:induction false} ItemsExtend(input: Bytes, more: Bytes, depth: nat, count: nat, budget: nat)
    requires ReadItems(input, depth, count, budget).Ok?
    ensures var r := ReadItems(input, depth, count, budget);
            ReadItems(input + more, depth, count, budget) == Ok(r.value, r.rest + more, r.left)
    decreases budget, 1 + count
  {
    if count > 0 {
      ReadExtends(input, more, depth, budget);
      var r := Read(input, depth, budget);
      ItemsExtend(r.rest, more, depth, count - 1, r.left);
    }
  }
}
