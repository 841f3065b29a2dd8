/** The rendered alert read back: a reader of JSON objects whose values are strings (RFC 8259,
    sections 2 to 7), and the round trip through it. */
module PromptJson {

  import opened Basics
  import opened ContextBudget
  import opened PromptBuilder

  datatype Reading<T> = Got(value: T, rest: string) | Bad

  predicate IsBlank(c: char) { c == ' ' || c == '\n' || c == '\r' || c == '\t' }

  function SkipBlanks(s: string): (r: string)
    ensures |r| <= |s|
  {
    if s != "" && IsBlank(s[0]) then SkipBlanks(s[1..]) else s
  }

  function HexValue(c: char): Option<int> {
    if '0' <= c <= '9' then Some(c as int - '0' as int)
    else if 'a' <= c <= 'f' then Some(c as int - 'a' as int + 10)
    else if 'A' <= c <= 'F' then Some(c as int - 'A' as int + 10)
    else None
  }

  /** What an escape of one letter stands for. */
  function Letter(c: char): Option<char> {
    if c == '\"' || c == '\\' || c == '/' then Some(c)
    else if c == 'b' then Some(8 as char)
    else if c == 'f' then Some(12 as char)
    else if c == 'n' then Some('\n')
    else if c == 'r' then Some('\r')
    else if c == 't' then Some('\t')
    else None
  }

  /** Four hexadecimal digits; those of surrogates are not read. */
  function ReadCode(s: string): Option<char> {
    if |s| < 4 || exists i :: 0 <= i < 4 && HexValue(s[i]).None? then None
    else
      var code := 4096 * HexValue(s[0]).value + 256 * HexValue(s[1]).value + 16 * HexValue(s[2]).value
                  + HexValue(s[3]).value;
      if 0 <= code < 0xD800 then Some(code as char) else None
  }

  /** One character of a string. */
  function ReadChar(s: string): (r: Reading<char>)
    ensures r.Got? ==> |r.rest| < |s|
  {
    if s == "" || s[0] as int < 32 || s[0] == '\"' then Bad
    else if s[0] != '\\' then Got(s[0], s[1..])
    else if |s| < 2 then Bad
    else if s[1] == 'u' then
      match ReadCode(s[2..]) case Some(c) => Got(c, s[6..]) case None => Bad
    else
      match Letter(s[1]) case Some(c) => Got(c, s[2..]) case None => Bad
  }

  /** The rest of a string whose opening quote is taken. */
  function ReadText(s: string): (r: Reading<string>)
    ensures r.Got? ==> |r.rest| < |s|
  {
    if s != "" && s[0] == '\"' then Got("", s[1..])
    else
      match ReadChar(s)
      case Bad => Bad
      case Got(c, rest) => match ReadText(rest) case Bad => Bad case Got(t, after) => Got([c] + t, after)
  }

  function ReadQuoted(s: string): (r: Reading<string>)
    ensures r.Got? ==> |r.rest| < |s|
  {
    if s == "" || s[0] != '\"' then Bad else ReadText(s[1..])
  }

  /** A key, a colon and a string. */
  function ReadField(s: string): (r: Reading<Field>)
    ensures r.Got? ==> |r.rest| < |s|
  {
    match ReadQuoted(SkipBlanks(s))
    case Bad => Bad
    case Got(key, rest) =>
      var colon := SkipBlanks(rest);
      if colon == "" || colon[0] != ':' then Bad
      else
        match ReadQuoted(SkipBlanks(colon[1..]))
        case Bad => Bad
        case Got(text, after) => Got(Field(key, Str(text)), after)
  }

  /** Fields, each read by `one`, with commas between them, up to the closing brace. */
  function ReadFields(s: string, one: string -> Reading<Field>): Reading<seq<Field>>
    decreases |s|
  {
    match one(s)
    case Bad => Bad
    case Got(f, rest) =>
      var next := SkipBlanks(rest);
      if next == "" || |next| > |s| then Bad
      else if next[0] == '}' then Got([f], next[1..])
      else if next[0] == ',' then
        match ReadFields(next[1..], one) case Bad => Bad case Got(fs, after) => Got([f] + fs, after)
      else Bad
  }

  function ReadObject(s: string): Reading<seq<Field>> {
    if s == "" || s[0] != '{' then Bad
    else
      var inner := SkipBlanks(s[1..]);
      if inner != "" && inner[0] == '}' then Got([], inner[1..]) else ReadFields(s[1..], ReadField)
  }

  // ------------------------------------------------------------------------ strings

  lemma {:induction false} SpellCons(c: char, s: string, esc: char -> string)
    ensures Spell([c] + s, esc) == esc(c) + Spell(s, esc)
  {
    var all := [c] + s;
    if s == "" {
      assert all[..|all| - 1] == "";
    } else {
      assert all[..|all| - 1] == [c] + s[..|s| - 1];
      SpellCons(c, s[..|s| - 1], esc);
    }
  }

  lemma HexRead(n: int)
    requires 0 <= n < 16
    ensures HexValue(Hex(n)) == Some(n)
  {
  }

  /** Every character is read back from its escape. */
  lemma CharReadsBack(c: char, rest: string)
    ensures ReadChar(Escape(c) + rest) == Got(c, rest)
  {
    var e := Escape(c);
    if c as int < 32 && |e| == 6 {
      HexRead(c as int / 16);
      HexRead(c as int % 16);
      assert HexValue('0') == Some(0);
      assert (e + rest)[2..][..4] == "00" + [Hex(c as int / 16), Hex(c as int % 16)];
      assert (e + rest)[6..] == rest;
    } else {
      assert (e + rest)[|e|..] == rest;
    }
  }

  /** Nothing is escaped but the quote, the backslash and control characters. */
  lemma EscapesIff(c: char)
    ensures Escape(c) == [c] <==> c != '\"' && c != '\\' && c as int >= 32
  {
  }

  lemma {:induction false} TextReadsBack(s: string, rest: string)
    ensures ReadText(Spell(s, Escape) + "\"" + rest) == Got(s, rest)
  {
    if s != "" {
      var c, t := s[0], s[1..];
      assert s == [c] + t;
      SpellCons(c, t, Escape);
      var behind := Spell(t, Escape) + "\"" + rest;
      assert Spell(s, Escape) + "\"" + rest == Escape(c) + behind;
      CharReadsBack(c, behind);
      TextReadsBack(t, rest);
      QuoteIsEscaped(c, behind);
    }
  }

  lemma QuoteIsEscaped(c: char, rest: string)
    ensures (Escape(c) + rest)[0] != '\"'
  {
  }

  /** A printed string reads back as itself, whatever its characters and whatever follows. */
  lemma QuoteReadsBack(s: string, rest: string)
    ensures ReadQuoted(Quote(s) + rest) == Got(s, rest)
  {
    assert (Quote(s) + rest)[1..] == Spell(s, Escape) + "\"" + rest;
    TextReadsBack(s, rest);
  }

  // ------------------------------------------------------------------------ objects

  lemma {:induction false} BlanksSkipped(n: nat, t: string)
    requires t != "" && !IsBlank(t[0])
    ensures SkipBlanks(Spaces(n) + t) == t
  {
    if n == 0 {
      assert Spaces(n) + t == t;
    } else {
      assert (Spaces(n) + t)[1..] == Spaces(n - 1) + t;
      BlanksSkipped(n - 1, t);
    }
  }

  lemma OneBlank(c: char, t: string)
    requires IsBlank(c) && t != "" && !IsBlank(t[0])
    ensures SkipBlanks([c] + t) == t
  {
    assert ([c] + t)[1..] == t;
  }

  /** The text of an item behind its indentation. */
  function Entry(f: Field): string
    requires f.value.Str?
  {
    Quote(f.key) + ": " + Quote(f.value.text)
  }

  lemma EntryReadsBack(f: Field, rest: string)
    requires f.value.Str?
    ensures ReadField(Entry(f) + rest) == Got(f, rest)
  {
    var value := Quote(f.value.text) + rest;
    var behind := ": " + value;
    assert Entry(f) + rest == Quote(f.key) + behind;
    QuoteReadsBack(f.key, behind);
    assert behind[1..] == [' '] + value;
    OneBlank(' ', value);
    QuoteReadsBack(f.value.text, rest);
  }

  lemma ItemOpens(b: Budget, f: Field, rest: string)
    requires f.value.Str?
    ensures SkipBlanks(Item(b, f) + rest) == Entry(f) + rest
    ensures (Entry(f) + rest)[0] == '\"'
  {
    var all, entry := Item(b, f) + rest, Entry(f) + rest;
    assert all == ['\n'] + (Spaces(b.indent) + entry);
    assert all[1..] == Spaces(b.indent) + entry;
    BlanksSkipped(b.indent, entry);
  }

  lemma SkipTwice(s: string)
    ensures SkipBlanks(SkipBlanks(s)) == SkipBlanks(s)
  {
  }

  lemma FieldReadsBack(b: Budget, f: Field, rest: string)
    requires f.value.Str?
    ensures ReadField(Item(b, f) + rest) == Got(f, rest)
  {
    ItemOpens(b, f, rest);
    EntryReadsBack(f, rest);
    SkipTwice(Item(b, f) + rest);
  }

  /** Texts with a comma before each. */
  function Tail(items: seq<string>): string {
    if items == [] then "" else "," + items[0] + Tail(items[1..])
  }

  lemma {:induction false} TailSnoc(items: seq<string>, x: string)
    ensures Tail(items + [x]) == Tail(items) + "," + x
  {
    if items == [] {
      assert [x][1..] == [];
    } else {
      assert (items + [x])[1..] == items[1..] + [x];
      TailSnoc(items[1..], x);
    }
  }

  function Texts(b: Budget, fields: seq<Field>): (r: seq<string>)
    ensures |r| == |fields| && forall i :: 0 <= i < |r| ==> r[i] == Item(b, fields[i])
  {
    seq(|fields|, i requires 0 <= i < |fields| => Item(b, fields[i]))
  }

  /** The texts with a comma between them. */
  function Joined(items: seq<string>): string {
    if items == [] then ""
    else Joined(items[..|items| - 1]) + (if |items| > 1 then "," else "") + items[|items| - 1]
  }

  lemma {:induction false} JoinedIs(items: seq<string>)
    requires items != []
    ensures Joined(items) == items[0] + Tail(items[1..])
  {
    var n := |items| - 1;
    if n == 0 {
      assert items[..0] == [] && items[1..] == [];
    } else {
      JoinedIs(items[..n]);
      TailSnoc(items[1..n], items[n]);
      assert items[..n][1..] == items[1..n] && items[1..n] + [items[n]] == items[1..];
    }
  }

  lemma {:induction false} ItemsAre(b: Budget, fields: seq<Field>)
    ensures Items(b, fields) == Joined(Texts(b, fields))
  {
    if fields != [] {
      var n := |fields| - 1;
      ItemsAre(b, fields[..n]);
      assert Texts(b, fields)[..n] == Texts(b, fields[..n]);
    }
  }

  /** The item reads as the field, whatever follows. */
  ghost predicate ReadsAs(item: string, f: Field, one: string -> Reading<Field>) {
    forall rest :: one(item + rest) == Got(f, rest)
  }

  lemma LastField(item: string, f: Field, rest: string, one: string -> Reading<Field>)
    requires ReadsAs(item, f, one)
    ensures ReadFields(item + ("\n}" + rest), one) == Got([f], rest)
  {
    var end := "\n}" + rest;
    assert one(item + end) == Got(f, end);
    assert end == ['\n'] + ("}" + rest);
    OneBlank('\n', "}" + rest);
    assert ("}" + rest)[1..] == rest;
  }

  lemma FieldBeforeMore(item: string, f: Field, next: string, fs: seq<Field>, rest: string,
                        one: string -> Reading<Field>)
    requires ReadsAs(item, f, one) && ReadFields(next, one) == Got(fs, rest)
    ensures ReadFields(item + ("," + next), one) == Got([f] + fs, rest)
  {
    var behind := "," + next;
    assert one(item + behind) == Got(f, behind);
    assert behind[1..] == next;
  }

  lemma {:induction false} FieldsReadBack(items: seq<string>, fields: seq<Field>, rest: string,
                                          one: string -> Reading<Field>)
    requires fields != [] && |items| == |fields|
    requires forall i :: 0 <= i < |fields| ==> ReadsAs(items[i], fields[i], one)
    ensures ReadFields(items[0] + (Tail(items[1..]) + ("\n}" + rest)), one) == Got(fields, rest)
    decreases |fields|
  {
    var end := "\n}" + rest;
    if |fields| == 1 {
      LastField(items[0], fields[0], rest, one);
      assert Tail(items[1..]) + end == end && fields == [fields[0]];
    } else {
      var more := items[1..];
      FieldsReadBack(more, fields[1..], rest, one);
      var next := more[0] + (Tail(more[1..]) + end);
      FieldBeforeMore(items[0], fields[0], next, fields[1..], rest, one);
      assert Tail(more) + end == "," + next && fields == [fields[0]] + fields[1..];
    }
  }

  lemma AllReadBack(b: Budget, fields: seq<Field>)
    requires forall i :: 0 <= i < |fields| ==> fields[i].value.Str?
    ensures forall i :: 0 <= i < |fields| ==> ReadsAs(Texts(b, fields)[i], fields[i], ReadField)
  {
    forall i | 0 <= i < |fields| ensures ReadsAs(Texts(b, fields)[i], fields[i], ReadField) {
      forall behind ensures ReadField(Texts(b, fields)[i] + behind) == Got(fields[i], behind) {
        FieldReadsBack(b, fields[i], behind);
      }
    }
  }

  /** A rendered alert whose values are strings reads back as its fields, in order, whatever follows. */
  lemma ObjectReadsBack(b: Budget, fields: seq<Field>, rest: string)
    requires forall i :: 0 <= i < |fields| ==> fields[i].value.Str?
    ensures ReadObject(Json(b, fields) + rest) == Got(fields, rest)
  {
    if fields == [] {
      var text := Json(b, fields) + rest;
      assert text[1..] == "}" + rest && ("}" + rest)[1..] == rest;
    } else {
      var items := Texts(b, fields);
      AllReadBack(b, fields);
      FieldsReadBack(items, fields, rest, ReadField);
      BraceOpens(b, fields[0], items, rest);
      JsonIs(b, fields, rest);
    }
  }

  lemma JsonIs(b: Budget, fields: seq<Field>, rest: string)
    requires fields != []
    ensures
      var items := Texts(b, fields);
      Json(b, fields) + rest == "{" + (items[0] + (Tail(items[1..]) + ("\n}" + rest)))
  {
    ItemsAre(b, fields);
    JoinedIs(Texts(b, fields));
  }

  lemma BraceOpens(b: Budget, f: Field, items: seq<string>, rest: string)
    requires f.value.Str? && items != [] && items[0] == Item(b, f)
    ensures
      var text := items[0] + (Tail(items[1..]) + ("\n}" + rest));
      ReadObject("{" + text) == ReadFields(text, ReadField)
  {
    var behind := Tail(items[1..]) + ("\n}" + rest);
    ItemOpens(b, f, behind);
    assert ("{" + (items[0] + behind))[1..] == items[0] + behind;
  }
}
