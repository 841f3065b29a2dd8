/** Text operations that several components share. */
module TextTools {

  /** The characters that str.strip() removes. */
  predicate IsSpace(c: char) {
    var n := c as int;
    || 0x09 <= n <= 0x0D || 0x1C <= n <= 0x20 || n == 0x85 || n == 0xA0 || n == 0x1680
    || 0x2000 <= n <= 0x200A || n == 0x2028 || n == 0x2029 || n == 0x202F || n == 0x205F || n == 0x3000
  }

  function TrimLeft<T>(s: seq<T>, space: T -> bool): seq<T> {
    if s != [] && space(s[0]) then TrimLeft(s[1..], space) else s
  }

  function TrimRight<T>(s: seq<T>, space: T -> bool): seq<T> {
    if s != [] && space(s[|s| - 1]) then TrimRight(s[..|s| - 1], space) else s
  }

  /** `s` without the white space at its ends. */
  function Trim<T>(s: seq<T>, space: T -> bool): seq<T> { TrimRight(TrimLeft(s, space), space) }

  function Strip(s: string): string { Trim(s, IsSpace) }

  /** Neither end of `s` is white space. */
  predicate Trimmed(s: string) { s == [] || (!IsSpace(s[0]) && !IsSpace(s[|s| - 1])) }

  lemma {:induction false} TrimLeftTrims<T>(s: seq<T>, space: T -> bool)
    ensures TrimLeft(s, space) == [] || !space(TrimLeft(s, space)[0])
    ensures |TrimLeft(s, space)| <= |s| && (|TrimLeft(s, space)| == |s| ==> TrimLeft(s, space) == s)
  {
    if s != [] && space(s[0]) {
      TrimLeftTrims(s[1..], space);
    }
  }

  lemma {:induction false} TrimRightTrims<T>(s: seq<T>, space: T -> bool)
    ensures |TrimRight(s, space)| <= |s| && TrimRight(s, space) == s[..|TrimRight(s, space)|]
    ensures TrimRight(s, space) == [] || !space(TrimRight(s, space)[|TrimRight(s, space)| - 1])
  {
    if s != [] && space(s[|s| - 1]) {
      TrimRightTrims(s[..|s| - 1], space);
    }
  }

  /** Trimming takes white space off both ends, and leaves none there. */
  lemma TrimIs<T>(s: seq<T>, space: T -> bool) returns (front: seq<T>, back: seq<T>)
    ensures s == front + Trim(s, space) + back
    ensures (forall i :: 0 <= i < |front| ==> space(front[i])) && (forall i :: 0 <= i < |back| ==> space(back[i]))
    ensures Trim(s, space) != [] ==> !space(Trim(s, space)[0]) && !space(Trim(s, space)[|Trim(s, space)| - 1])
  {
    front := LeftPart(s, space);
    back := RightPart(TrimLeft(s, space), space);
    TrimLeftTrims(s, space);
    TrimRightTrims(TrimLeft(s, space), space);
  }

  lemma {:induction false} LeftPart<T>(s: seq<T>, space: T -> bool) returns (front: seq<T>)
    ensures s == front + TrimLeft(s, space) && forall i :: 0 <= i < |front| ==> space(front[i])
  {
    front := [];
    if s != [] && space(s[0]) {
      var rest := LeftPart(s[1..], space);
      front := [s[0]] + rest;
    }
  }

  lemma {:induction false} RightPart<T>(s: seq<T>, space: T -> bool) returns (back: seq<T>)
    ensures s == TrimRight(s, space) + back && forall i :: 0 <= i < |back| ==> space(back[i])
  {
    back := [];
    if s != [] && space(s[|s| - 1]) {
      var rest := RightPart(s[..|s| - 1], space);
      back := rest + [s[|s| - 1]];
    }
  }

  /** Stripping leaves exactly the trimmed texts alone, and its result is trimmed. */
  lemma StripFixes(s: string)
    ensures Trimmed(Strip(s))
    ensures Strip(s) == s <==> Trimmed(s)
  {
    var u := TrimLeft(s, IsSpace);
    TrimLeftTrims(s, IsSpace);
    TrimRightTrims(u, IsSpace);
    assert Strip(s) != [] ==> Strip(s)[0] == u[0];
    if Strip(s) == s {
      assert |u| == |s|;
    }
  }

  /** ASCII lower case. */
  function LowerChar(c: char): char { if 'A' <= c <= 'Z' then c + 32 as char else c }

  function Lower(s: string): string {
    seq(|s|, i requires 0 <= i < |s| => LowerChar(s[i]))
  }

  function Join(texts: seq<string>, separator: string): string {
    if texts == [] then ""
    else if |texts| == 1 then texts[0]
    else Join(texts[..|texts| - 1], separator) + separator + texts[|texts| - 1]
  }

  /** Joining puts the separator between texts, and only there. */
  lemma {:induction false} JoinIs(a: seq<string>, b: seq<string>, separator: string)
    ensures Join([], separator) == "" && forall t :: Join([t], separator) == t
    ensures a != [] && b != [] ==> Join(a + b, separator) == Join(a, separator) + separator + Join(b, separator)
  {
    if a != [] && b != [] {
      var all, n := a + b, |b| - 1;
      assert all[..|all| - 1] == a + b[..n];
      if n == 0 {
        assert a + b[..0] == a;
      } else {
        JoinIs(a, b[..n], separator);
        assert Join(a, separator) + separator + Join(b[..n], separator) + separator + b[n]
            == Join(a, separator) + separator + (Join(b[..n], separator) + separator + b[n]);
      }
    }
  }

  /** Two texts joined by a character the first does not contain can be told apart again. */
  lemma JoinTells(a: string, p: string, b: string, q: string, separator: char)
    requires separator !in a && separator !in b && a + [separator] + p == b + [separator] + q
    ensures a == b && p == q
  {
    var s, t := a + [separator] + p, b + [separator] + q;
    assert s[|a|] == separator && t[|b|] == separator;
    assert forall i :: 0 <= i < |a| ==> s[i] == a[i];
    assert forall i :: 0 <= i < |b| ==> t[i] == b[i];
    assert |a| == |b|;
    assert s[..|a|] == a && t[..|b|] == b && s[|a| + 1..] == p && t[|b| + 1..] == q;
  }
}
