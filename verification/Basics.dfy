/** What modules without anything else in common share. */
module Basics {

  datatype Option<T> = None | Some(value: T)

  /** The last `n` elements, or all when there are fewer. */
  function Last<T>(s: seq<T>, n: nat): seq<T> { if |s| <= n then s else s[|s| - n..] }

  lemma LastSnoc<T>(s: seq<T>, x: T, n: nat)
    requires n > 0
    ensures Last(s + [x], n) == Last(s, n - 1) + [x]
  {
  }

  lemma LastOfLast<T>(s: seq<T>, m: nat, n: nat)
    ensures Last(Last(s, m), n) == Last(s, if m <= n then m else n)
  {
  }

  /** A bounded window to which an element is added is the window of the longer sequence. */
  lemma LastStep<T>(s: seq<T>, x: T, n: nat)
    ensures Last(Last(s, n) + [x], n) == Last(s + [x], n)
  {
  }
}
