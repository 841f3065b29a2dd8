/** Which bytes the reply reader takes for a number, and for which: a sign or none, groups of decimal
    digits with single underscores between them, and leading zeros. */
module RespNumbers {

  import opened Basics
  import opened RespCodec

  predicate AllDigits(s: Bytes) { forall i :: 0 <= i < |s| ==> 48 <= s[i] <= 57 }

  predicate AreGroups(groups: seq<Bytes>) {
    groups != [] && forall i :: 0 <= i < |groups| ==> groups[i] != [] && AllDigits(groups[i])
  }

  /** The groups with underscores between them, and without. */
  function Grouped(groups: seq<Bytes>): Bytes {
    if groups == [] then []
    else if |groups| == 1 then groups[0]
    else Grouped(groups[..|groups| - 1]) + [UNDERSCORE] + groups[|groups| - 1]
  }

  function Flatten(groups: seq<Bytes>): Bytes {
    if groups == [] then [] else Flatten(groups[..|groups| - 1]) + groups[|groups| - 1]
  }

  function Zeros(k: nat): Bytes { seq(k, i => 48) }

  /** `s` denotes `n`: its digits are those of `n` behind any zeros. */
  ghost predicate Unsigned(s: Bytes, n: nat) {
    exists groups, k: nat :: IsUnsigned(s, n, groups, k)
  }

  predicate IsUnsigned(s: Bytes, n: nat, groups: seq<Bytes>, k: nat) {
    && AreGroups(groups) && s == Grouped(groups) && |Flatten(groups)| <= MAX_INT_DIGITS
    && Flatten(groups) == Zeros(k) + Digits(n)
  }

  ghost predicate Numeral(s: Bytes, n: int) {
    || (n >= 0 && Unsigned(s, n))
    || (n >= 0 && s != [] && s[0] == PLUS && Unsigned(s[1..], n))
    || (n <= 0 && s != [] && s[0] == MINUS && Unsigned(s[1..], -n))
  }

  // ------------------------------------------------------------------------- groups

  lemma {:induction false} SameBehind(a: Bytes, b: Bytes, g: Bytes)
    requires AllDigits(g) && DigitCount(a) == DigitCount(b) && DigitValue(a) == DigitValue(b)
    ensures DigitCount(a + g) == DigitCount(b + g) && DigitValue(a + g) == DigitValue(b + g)
  {
    if g == [] {
      assert a + g == a && b + g == b;
    } else {
      var init := g[..|g| - 1];
      SameBehind(a, b, init);
      assert (a + g)[..|a + g| - 1] == a + init && (b + g)[..|b + g| - 1] == b + init;
    }
  }

  lemma {:induction false} DigitsCount(g: Bytes)
    requires AllDigits(g)
    ensures DigitCount(g) == |g|
  {
    if g != [] {
      DigitsCount(g[..|g| - 1]);
    }
  }

  lemma UnderscoreCounts(s: Bytes)
    ensures DigitCount(s + [UNDERSCORE]) == DigitCount(s) && DigitValue(s + [UNDERSCORE]) == DigitValue(s)
  {
    assert (s + [UNDERSCORE])[..|s|] == s;
  }

  lemma RunAppend(s: Bytes, g: Bytes)
    requires DigitRun(s) && g != [] && AllDigits(g)
    ensures DigitRun(s + [UNDERSCORE] + g)
  {
    var all := s + [UNDERSCORE] + g;
    forall i | 0 <= i < |all| ensures IsDigit(all[i]) || all[i] == UNDERSCORE {
    }
    assert all[|all| - 1] == g[|g| - 1];
  }

  predicate RunsAs(s: Bytes, flat: Bytes) {
    && DigitRun(s) && DigitCount(s) == |flat| && DigitValue(s) == DigitValue(flat)
    && flat != [] && AllDigits(flat)
  }

  lemma GroupRuns(s: Bytes, flat: Bytes, g: Bytes)
    requires RunsAs(s, flat) && g != [] && AllDigits(g)
    ensures RunsAs(s + [UNDERSCORE] + g, flat + g)
  {
    RunAppend(s, g);
    UnderscoreCounts(s);
    DigitsCount(flat);
    SameBehind(s + [UNDERSCORE], flat, g);
    DigitsCount(flat + g);
  }

  lemma OneGroupRuns(g: Bytes)
    requires g != [] && AllDigits(g)
    ensures RunsAs(g, g)
  {
    DigitsCount(g);
  }

  lemma {:induction false} GroupsRun(groups: seq<Bytes>)
    requires AreGroups(groups)
    ensures RunsAs(Grouped(groups), Flatten(groups))
  {
    var n := |groups| - 1;
    if n == 0 {
      assert Flatten(groups) == Flatten(groups[..0]) + groups[0] == groups[0];
      OneGroupRuns(groups[0]);
    } else {
      var s, flat := Grouped(groups[..n]), Flatten(groups[..n]);
      GroupsRun(groups[..n]);
      GroupRuns(s, flat, groups[n]);
      assert Grouped(groups) == s + [UNDERSCORE] + groups[n] && Flatten(groups) == flat + groups[n];
    }
  }

  lemma RunInit(s: Bytes) returns (m: nat)
    requires DigitRun(s) && |s| > 1
    ensures 0 < m < |s| && DigitRun(s[..m])
    ensures m == |s| - 1 || (m == |s| - 2 && s[m] == UNDERSCORE)
  {
    m := if s[|s| - 2] == UNDERSCORE then |s| - 2 else |s| - 1;
    assert IsDigit(s[|s| - 2]) || s[|s| - 2] == UNDERSCORE;
    if s[|s| - 2] == UNDERSCORE {
      assert !IsDigit(s[|s| - 2]) && s[0] != UNDERSCORE;
      assert IsDigit(s[|s| - 3]);
    }
  }

  lemma {:induction false} RunHasGroups(s: Bytes) returns (groups: seq<Bytes>)
    requires DigitRun(s)
    ensures AreGroups(groups) && s == Grouped(groups)
    decreases |s|
  {
    if |s| == 1 {
      groups := [s];
    } else {
      var m := RunInit(s);
      var before := RunHasGroups(s[..m]);
      var d := s[|s| - 1];
      if m == |s| - 2 {
        groups := before + [[d]];
        assert groups[..|before|] == before;
        assert s == s[..m] + [UNDERSCORE] + [d];
      } else {
        groups := Longer(before, d);
        assert s == s[..m] + [d];
      }
    }
  }

  /** One more digit in the last group. */
  lemma Longer(groups: seq<Bytes>, d: Byte) returns (more: seq<Bytes>)
    requires AreGroups(groups) && IsDigit(d)
    ensures AreGroups(more) && Grouped(more) == Grouped(groups) + [d]
  {
    var n := |groups| - 1;
    more := groups[..n] + [groups[n] + [d]];
    assert more[..n] == groups[..n];
  }

  // ------------------------------------------------------------------- leading zeros

  lemma {:induction false} ZerosBehind(k: nat, n: nat)
    ensures DigitValue(Zeros(k) + Digits(n)) == n
  {
    var s := Zeros(k) + Digits(n);
    if n >= 10 {
      ZerosBehind(k, n / 10);
      assert s[..|s| - 1] == Zeros(k) + Digits(n / 10);
    } else {
      ZeroValue(k);
      assert s[..|s| - 1] == Zeros(k);
    }
  }

  lemma {:induction false} ZeroValue(k: nat)
    ensures DigitValue(Zeros(k)) == 0
  {
    if k > 0 {
      ZeroValue(k - 1);
      assert Zeros(k)[..k - 1] == Zeros(k - 1);
    }
  }

  lemma {:induction false} DigitsOf(s: Bytes)
    requires s != [] && AllDigits(s) && s[0] != 48
    ensures DigitValue(s) >= 1 && s == Digits(DigitValue(s))
  {
    var init, d := s[..|s| - 1], s[|s| - 1];
    if init != [] {
      DigitsOf(init);
      var n := DigitValue(s);
      assert n == 10 * DigitValue(init) + (d - 48) && n / 10 == DigitValue(init) && n % 10 == d - 48;
      assert s == init + [d];
    } else {
      assert s == [d] && DigitValue(s) == d - 48;
    }
  }

  lemma {:induction false} ZerosAndDigits(s: Bytes) returns (k: nat)
    requires s != [] && AllDigits(s)
    ensures DigitValue(s) >= 0 && s == Zeros(k) + Digits(DigitValue(s))
    decreases |s|
  {
    if s[0] != 48 {
      DigitsOf(s);
      k := 0;
    } else if |s| == 1 {
      k := 0;
      assert s == [48] && s[..0] == [];
    } else {
      k := ZerosAndDigits(s[1..]);
      var n := DigitValue(s[1..]);
      assert s == Zeros(k + 1) + Digits(n);
      ZerosBehind(k + 1, n);
      k := k + 1;
    }
  }

  // ----------------------------------------------------------------------- numerals

  lemma UnsignedIff(s: Bytes, n: int)
    ensures ParseUnsigned(s) == Some(n) <==> n >= 0 && Unsigned(s, n)
  {
    if ParseUnsigned(s) == Some(n) {
      var groups := RunHasGroups(s);
      GroupsRun(groups);
      var k := ZerosAndDigits(Flatten(groups));
      assert IsUnsigned(s, n, groups, k);
    }
    if n >= 0 && Unsigned(s, n) {
      var groups, k: nat :| IsUnsigned(s, n, groups, k);
      GroupsRun(groups);
      ZerosBehind(k, n);
    }
  }

  lemma UnsignedStartsWithDigit(s: Bytes, n: nat)
    requires Unsigned(s, n)
    ensures s != [] && IsDigit(s[0])
  {
    UnsignedIff(s, n);
  }

  /** The reader takes exactly the numerals for numbers, each for its own. */
  lemma ParsesNumeralsIff(s: Bytes, n: int)
    ensures ParseInt(s) == Some(n) <==> Numeral(s, n)
  {
    UnsignedIff(s, n);
    if s != [] {
      UnsignedIff(s[1..], n);
      UnsignedIff(s[1..], -n);
    }
    if n >= 0 && Unsigned(s, n) {
      UnsignedStartsWithDigit(s, n);
    }
  }
}
