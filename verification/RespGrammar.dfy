/** What the reply reader accepts, as a grammar.

    A parse tree says how bytes are a reply: the line of every frame, what its number is, and the
    frames inside.  The reader accepts exactly the bytes that begin with the text of a valid tree, and
    answers the tree's value. */
module RespGrammar {

  import opened Basics
  import opened RespCodec
  import opened RespNumbers
  import opened TextTools

  datatype Tree =
    | Status(line: Bytes)
    | Plain(line: Bytes)                        // a line with no known prefix is its own text
    | Numeric(line: Bytes, n: int)
    | Absent(line: Bytes, n: int)               // a negative length
    | Bulk(line: Bytes, text: Bytes)
    | Frames(line: Bytes, items: seq<Tree>)

  /** One line, with the only newline at its end and a carriage return before that. */
  predicate IsLine(line: Bytes) {
    && 2 <= |line| <= LINE_LIMIT + 1 && line[|line| - 2] == CR && line[|line| - 1] == LF
    && forall i :: 0 <= i < |line| - 1 ==> line[i] != LF
  }

  /** The line carries a number behind its prefix, which white space may surround. */
  ghost predicate Carries(line: Bytes, n: int, space: Byte -> bool)
    requires line != []
  {
    Numeral(Trim(line[1..], space), n)
  }

  ghost predicate CarriesNone(line: Bytes, space: Byte -> bool)
    requires line != []
  {
    forall n :: !Numeral(Trim(line[1..], space), n)
  }

  lemma CarriesIff(line: Bytes, n: int, space: Byte -> bool)
    requires line != []
    ensures Carries(line, n, space) <==> ParseInt(Trim(line[1..], space)) == Some(n)
  {
    ParsesNumeralsIff(Trim(line[1..], space), n);
  }

  ghost predicate Valid(t: Tree, depth: nat)
    decreases t, 0
  {
    && depth <= MAX_DEPTH && IsLine(t.line)
    && match t
       case Status(line) => line[0] == PLUS
       case Plain(line) => line[0] !in {PLUS, MINUS, COLON, DOLLAR, STAR}
       case Numeric(line, n) => line[0] == COLON && Carries(line, n, IsTextSpace)
       case Absent(line, n) => line[0] in {DOLLAR, STAR} && Carries(line, n, IsByteSpace) && n < 0
       case Bulk(line, text) => line[0] == DOLLAR && Carries(line, |text|, IsByteSpace) && |text| <= MAX_BULK_BYTES
       case Frames(line, items) =>
         line[0] == STAR && Carries(line, |items|, IsByteSpace) && |items| <= MAX_ARRAY_ITEMS
         && AllValid(items, depth + 1)
  }

  ghost predicate AllValid(items: seq<Tree>, depth: nat)
    decreases items, 1
  {
    items == [] || (Valid(items[0], depth) && AllValid(items[1..], depth))
  }

  /** The bytes of a tree. */
  function Flat(t: Tree): Bytes
    decreases t, 0
  {
    match t
    case Bulk(line, text) => line + (text + CRLF)
    case Frames(line, items) => line + FlatAll(items)
    case _ => t.line
  }

  function FlatAll(items: seq<Tree>): Bytes
    decreases items, 1
  {
    if items == [] then [] else Flat(items[0]) + FlatAll(items[1..])
  }

  function ValueOf(t: Tree): Resp
    decreases t, 0
  {
    match t
    case Status(line) => Str(if line == [] then [] else Trim(line[1..], IsTextSpace))
    case Plain(line) => Str(Trim(line, IsTextSpace))
    case Numeric(_, n) => Int(n)
    case Absent(_, _) => Nil
    case Bulk(_, text) => Str(text)
    case Frames(_, items) => List(ValuesOf(items))
  }

  function ValuesOf(items: seq<Tree>): (r: seq<Resp>)
    ensures |r| == |items|
    decreases items, 1
  {
    if items == [] then [] else [ValueOf(items[0])] + ValuesOf(items[1..])
  }

  /** The input begins with the tree, and the budget pays for it. */
  predicate Begins(input: Bytes, t: Tree, rest: Bytes, budget: nat, left: nat) {
    input == Flat(t) + rest && |Flat(t)| <= budget && left == budget - |Flat(t)|
  }

  predicate BeginsAll(input: Bytes, items: seq<Tree>, rest: Bytes, budget: nat, left: nat) {
    input == FlatAll(items) + rest && |FlatAll(items)| <= budget && left == budget - |FlatAll(items)|
  }

  // ------------------------------------------------------------------ trees are read

  lemma LineEnds(line: Bytes)
    requires IsLine(line)
    ensures EndsCrlf(line) && LF !in line[..|line| - 1]
  {
    assert line[|line| - 2..] == CRLF;
  }

  lemma LineIsRead(line: Bytes, rest: Bytes)
    requires IsLine(line)
    ensures ReadLine(line + rest) == Taken(line, rest) && EndsCrlf(line)
  {
    var all, i := line + rest, |line| - 1;
    LineEnds(line);
    assert all[..i] == line[..i] && all[i] == LF;
    NewlineUnique(all, i);
    assert all[..i + 1] == line && all[i + 1..] == rest;
  }

  lemma FirstLine(input: Bytes, line: Bytes, behind: Bytes, depth: nat, budget: nat)
    requires IsLine(line) && input == line + behind && depth <= MAX_DEPTH && |line| <= budget
    ensures EndsCrlf(line)
    ensures Read(input, depth, budget) == ReadFrame(line, behind, depth, budget - |line|)
  {
    LineIsRead(line, behind);
  }

  /** What stands behind the first part of an input. */
  lemma Behind(input: Bytes, first: Bytes, more: Bytes, rest: Bytes) returns (behind: Bytes)
    requires input == (first + more) + rest
    ensures input == first + behind && behind == more + rest
  {
    behind := more + rest;
    assert (first + more) + rest == first + (more + rest);
  }

  /** A frame of one line. */
  lemma LineTreeIsRead(t: Tree, input: Bytes, rest: Bytes, depth: nat, budget: nat)
    requires Valid(t, depth) && !t.Bulk? && !t.Frames? && input == t.line + rest && |t.line| <= budget
    ensures Read(input, depth, budget) == Ok(ValueOf(t), rest, budget - |t.line|)
  {
    FirstLine(input, t.line, rest, depth, budget);
    if t.Numeric? || t.Absent? {
      CarriesIff(t.line, t.n, if t.Numeric? then IsTextSpace else IsByteSpace);
    }
  }

  lemma BulkTreeIsRead(line: Bytes, text: Bytes, input: Bytes, behind: Bytes, rest: Bytes, depth: nat, budget: nat)
    requires Valid(Bulk(line, text), depth) && input == line + behind
    requires behind == (text + CRLF) + rest && |line| + |text| + 2 <= budget
    ensures Read(input, depth, budget) == Ok(Str(text), rest, budget - (|line| + |text| + 2))
  {
    FirstLine(input, line, behind, depth, budget);
    CarriesIff(line, |text|, IsByteSpace);
    BulkBody(text, rest, budget - |line|);
  }

  lemma FramesTreeIsRead(line: Bytes, items: seq<Tree>, behind: Bytes, rest: Bytes, depth: nat, left: nat, end: nat)
    requires Valid(Frames(line, items), depth) && EndsCrlf(line)
    requires ReadItems(behind, depth + 1, |items|, left) == Ok(ValuesOf(items), rest, end)
    ensures ReadFrame(line, behind, depth, left) == Ok(List(ValuesOf(items)), rest, end)
  {
    CarriesIff(line, |items|, IsByteSpace);
  }

  lemma {:induction false} TreeIsRead(t: Tree, input: Bytes, rest: Bytes, depth: nat, budget: nat, left: nat)
    requires Valid(t, depth) && Begins(input, t, rest, budget, left)
    ensures Read(input, depth, budget) == Ok(ValueOf(t), rest, left)
    decreases t, 0
  {
    match t
    case Bulk(line, text) =>
      var behind := Behind(input, line, text + CRLF, rest);
      BulkTreeIsRead(line, text, input, behind, rest, depth, budget);
    case Frames(line, items) =>
      var behind := Behind(input, line, FlatAll(items), rest);
      TreesAreRead(items, behind, rest, depth + 1, budget - |line|, left);
      FirstLine(input, line, behind, depth, budget);
      FramesTreeIsRead(line, items, behind, rest, depth, budget - |line|, left);
    case _ => LineTreeIsRead(t, input, rest, depth, budget);
  }

  lemma OneMoreItem(input: Bytes, v: Resp, behind: Bytes, depth: nat, count: nat, budget: nat, left: nat)
    requires count > 0 && Read(input, depth, budget) == Ok(v, behind, left)
    ensures ReadItems(input, depth, count, budget) == Prepend([v], ReadItems(behind, depth, count - 1, left))
  {
  }

  lemma {:induction false} TreesAreRead(items: seq<Tree>, input: Bytes, rest: Bytes, depth: nat, budget: nat, left: nat)
    requires AllValid(items, depth) && BeginsAll(input, items, rest, budget, left)
    ensures ReadItems(input, depth, |items|, budget) == Ok(ValuesOf(items), rest, left)
    decreases items, 1
  {
    if items == [] {
      assert FlatAll(items) + rest == rest;
    } else {
      var flat := Flat(items[0]);
      var behind := Behind(input, flat, FlatAll(items[1..]), rest);
      TreeIsRead(items[0], input, behind, depth, budget, budget - |flat|);
      TreesAreRead(items[1..], behind, rest, depth, budget - |flat|, left);
      OneMoreItem(input, ValueOf(items[0]), behind, depth, |items|, budget, budget - |flat|);
    }
  }

  // ------------------------------------------------------------- what is read is a tree

  lemma LineOf(input: Bytes)
    requires ReadLine(input).Taken? && EndsCrlf(ReadLine(input).line)
    ensures IsLine(ReadLine(input).line) && input == ReadLine(input).line + ReadLine(input).rest
  {
    var i := NewlineAt(input);
    if i == |input| {
      UnterminatedLine(input);
    }
    var line := ReadLine(input).line;
    assert line == input[..i + 1];
    assert line[|line| - 2..][0] == CR && line[|line| - 2..][1] == LF;
    forall j | 0 <= j < |line| - 1 ensures line[j] != LF {
      assert line[j] == input[..i][j];
    }
  }

  lemma BulkOf(rest: Bytes, n: nat, left: nat) returns (text: Bytes)
    requires ReadBulk(rest, n, left).Ok?
    ensures |text| == n <= MAX_BULK_BYTES && n + 2 <= left
    ensures ReadBulk(rest, n, left) == Ok(Str(text), rest[n + 2..], left - (n + 2)) && n + 2 <= |rest|
    ensures rest == (text + CRLF) + rest[n + 2..]
  {
    text := rest[..n];
    var body := rest[..n + 2];
    assert body == text + body[n..];
  }

  lemma {:induction false} ReadIsTree(input: Bytes, depth: nat, budget: nat) returns (t: Tree)
    requires Read(input, depth, budget).Ok?
    ensures
      var r := Read(input, depth, budget);
      Valid(t, depth) && Begins(input, t, r.rest, budget, r.left) && r.value == ValueOf(t)
    decreases budget, 0
  {
    LineOf(input);
    var Taken(line, rest) := ReadLine(input);
    t := FrameIsTree(line, rest, depth, budget - |line|);
    Glue(line, Flat(t), Read(input, depth, budget).rest);
  }

  lemma Glue(line: Bytes, flat: Bytes, rest: Bytes)
    requires |line| <= |flat| && flat[..|line|] == line
    ensures line + (flat[|line|..] + rest) == flat + rest
  {
    assert flat == line + flat[|line|..];
  }

  lemma {:induction false} FrameIsTree(line: Bytes, rest: Bytes, depth: nat, left: nat) returns (t: Tree)
    requires IsLine(line) && EndsCrlf(line) && depth <= MAX_DEPTH && ReadFrame(line, rest, depth, left).Ok?
    ensures
      var r := ReadFrame(line, rest, depth, left);
      && Valid(t, depth) && t.line == line && r.value == ValueOf(t)
      && |line| <= |Flat(t)| && Flat(t)[..|line|] == line && rest == Flat(t)[|line|..] + r.rest
      && |Flat(t)| <= left + |line| && r.left == left + |line| - |Flat(t)|
    decreases left, MAX_ARRAY_ITEMS + 2
  {
    var prefix := line[0];
    if prefix == PLUS {
      t := Status(line);
    } else if prefix == COLON {
      t := Numeric(line, ParseInt(Trim(line[1..], IsTextSpace)).value);
      CarriesIff(line, t.n, IsTextSpace);
    } else if prefix != DOLLAR && prefix != STAR {
      t := Plain(line);
    } else {
      var n := ParseInt(Trim(line[1..], IsByteSpace)).value;
      CarriesIff(line, n, IsByteSpace);
      if n < 0 {
        t := Absent(line, n);
      } else if prefix == DOLLAR {
        var text := BulkOf(rest, n, left);
        t := Bulk(line, text);
        assert Flat(t)[|line|..] == text + CRLF;
      } else {
        var items := ItemsAreTrees(rest, depth + 1, n, left);
        t := Frames(line, items);
        assert Flat(t)[|line|..] == FlatAll(items);
      }
    }
  }

  lemma {:induction false} ItemsAreTrees(input: Bytes, depth: nat, count: nat, budget: nat) returns (items: seq<Tree>)
    requires ReadItems(input, depth, count, budget).Ok?
    ensures
      var r := ReadItems(input, depth, count, budget);
      && |items| == count && AllValid(items, depth) && BeginsAll(input, items, r.rest, budget, r.left)
      && r.value == ValuesOf(items)
    decreases budget, 1 + count
  {
    items := [];
    if count > 0 {
      var first := ReadIsTree(input, depth, budget);
      var r := Read(input, depth, budget);
      var others := ItemsAreTrees(r.rest, depth, count - 1, r.left);
      items := [first] + others;
      var all := ReadItems(r.rest, depth, count - 1, r.left);
      TreesCompose(input, first, others, depth, r.rest, all.rest, budget, r.left, all.left);
      assert ReadItems(input, depth, count, budget) == Prepend([r.value], all);
    }
  }

  lemma TreesCompose(input: Bytes, first: Tree, others: seq<Tree>, depth: nat, behind: Bytes, rest: Bytes,
                     budget: nat, middle: nat, left: nat)
    requires Valid(first, depth) && AllValid(others, depth)
    requires Begins(input, first, behind, budget, middle) && BeginsAll(behind, others, rest, middle, left)
    ensures AllValid([first] + others, depth) && BeginsAll(input, [first] + others, rest, budget, left)
    ensures ValuesOf([first] + others) == [ValueOf(first)] + ValuesOf(others)
  {
    var items := [first] + others;
    assert items[1..] == others;
    assert Flat(first) + (FlatAll(others) + rest) == FlatAll(items) + rest;
  }

  // ---------------------------------------------------------------------- exactly these

  /** The reader answers a value, what follows and what is left of the budget exactly for the inputs
      that begin with a valid tree of that value. */
  lemma AcceptsIff(input: Bytes, depth: nat, budget: nat, v: Resp, rest: Bytes, left: nat)
    ensures Read(input, depth, budget) == Ok(v, rest, left) <==>
            exists t :: Valid(t, depth) && Begins(input, t, rest, budget, left) && v == ValueOf(t)
  {
    if Read(input, depth, budget) == Ok(v, rest, left) {
      var t := ReadIsTree(input, depth, budget);
    }
    forall t | Valid(t, depth) && Begins(input, t, rest, budget, left) && v == ValueOf(t)
      ensures Read(input, depth, budget) == Ok(v, rest, left)
    {
      TreeIsRead(t, input, rest, depth, budget, left);
    }
  }

  // ------------------------------------------------------------------------ the errors

  /** What the reader answers before it has a line it can pay for. */
  lemma EarlyErrors(input: Bytes, depth: nat, budget: nat)
    ensures depth > MAX_DEPTH ==> Read(input, depth, budget) == Err(NestingLimit)
    ensures depth <= MAX_DEPTH && input == [] ==> Read(input, depth, budget) == Err(ConnectionClosed)
    ensures depth <= MAX_DEPTH && |input| > LINE_LIMIT && LF !in input[..LINE_LIMIT + 1] ==>
              Read(input, depth, budget) == Err(LineTooLarge)
    ensures depth <= MAX_DEPTH && 0 < |input| <= LINE_LIMIT && LF !in input ==>
              Read(input, depth, budget) == Err(if |input| > budget then TotalLimit else MalformedLine)
  {
    if |input| > LINE_LIMIT {
      NewlineIn(input, LINE_LIMIT + 1);
    }
    if NewlineAt(input) < |input| {
      assert LF in input;
    } else {
      UnterminatedLine(input);
    }
  }

  lemma NewlineIn(input: Bytes, n: nat)
    requires n <= |input|
    ensures NewlineAt(input) < n ==> LF in input[..n]
  {
    var i := NewlineAt(input);
    if i < n {
      assert input[..n][i] == LF;
    }
  }

  /** Why a bulk string of `n` bytes is refused: it is too long, cannot be paid for, is not all there,
      or is not followed by the line terminator. */
  predicate BulkAnswer(r: Reading<Resp>, n: nat, rest: Bytes, left: nat) {
    && (r == Err(BulkTooLarge) <==> n > MAX_BULK_BYTES)
    && (r == Err(TotalLimit) <==> n <= MAX_BULK_BYTES && n + 2 > left)
    && (r == Err(IncompleteRead) <==> n <= MAX_BULK_BYTES && n + 2 <= left && |rest| < n + 2)
    && (r == Err(MalformedBulk) <==>
          n <= MAX_BULK_BYTES && n + 2 <= left && n + 2 <= |rest| && rest[n..n + 2] != CRLF)
    && (r.Err? ==> r.error in {BulkTooLarge, TotalLimit, IncompleteRead, MalformedBulk})
  }

  /** What it answers to a whole line that it cannot pay for, or that opens no frame. */
  lemma LineErrors(line: Bytes, rest: Bytes, depth: nat, budget: nat)
    requires IsLine(line) && depth <= MAX_DEPTH
    ensures
      var r := Read(line + rest, depth, budget);
      && (|line| > budget ==> r == Err(TotalLimit))
      && (|line| <= budget && line[0] == MINUS ==> r == Err(ServerError(Trim(line[1..], IsTextSpace))))
      && (|line| <= budget && line[0] == COLON && CarriesNone(line, IsTextSpace) ==> r == Err(InvalidInteger))
      && (|line| <= budget && line[0] in {DOLLAR, STAR} && CarriesNone(line, IsByteSpace) ==> r == Err(InvalidLength))
  {
    LineIsRead(line, rest);
    var text, bytes := Trim(line[1..], IsTextSpace), Trim(line[1..], IsByteSpace);
    if ParseInt(text).Some? {
      ParsesNumeralsIff(text, ParseInt(text).value);
    }
    if ParseInt(bytes).Some? {
      ParsesNumeralsIff(bytes, ParseInt(bytes).value);
    }
  }

  /** What it answers to a length that it does not accept. */
  lemma LengthErrors(line: Bytes, n: nat, rest: Bytes, depth: nat, budget: nat)
    requires IsLine(line) && depth <= MAX_DEPTH && |line| <= budget && Carries(line, n, IsByteSpace)
    ensures line[0] == STAR && n > MAX_ARRAY_ITEMS ==> Read(line + rest, depth, budget) == Err(ArrayTooLarge)
    ensures line[0] == DOLLAR ==> BulkAnswer(Read(line + rest, depth, budget), n, rest, budget - |line|)
  {
    CarriesIff(line, n, IsByteSpace);
    FirstLine(line + rest, line, rest, depth, budget);
    if |rest| >= n + 2 {
      assert rest[..n + 2][n..] == rest[n..n + 2];
    }
  }

  /** White space around a number: what bytes.strip() and, for text, str.strip() remove. */
  lemma SpacesAre(b: Byte)
    ensures IsByteSpace(b) <==> b in {9, 10, 11, 12, 13, 32}
    ensures IsTextSpace(b) <==> b in {9, 10, 11, 12, 13, 28, 29, 30, 31, 32}
  {
  }
}
