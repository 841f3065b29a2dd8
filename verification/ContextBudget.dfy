/** Bounding prompt context: truncation with a marker, and whole sections within a budget. */
module ContextBudget {

  import opened TextTools

  const DEFAULT_MARKER := "\n...<truncated>"

  datatype Budget = Budget(marker: string, indent: nat)

  /** `s` within `limit` characters: untouched if it fits, otherwise exactly `limit` characters. */
  function Text(b: Budget, s: string, limit: nat, preserveTail: bool): (r: string)
    ensures |s| <= limit ==> r == s
    ensures |s| > limit ==> |r| == limit
  {
    if |s| <= limit then s
    else if |b.marker| >= limit then b.marker[..limit]
    else
      var content := limit - |b.marker|;
      if !preserveTail || content < 2 then s[..content] + b.marker
      else
        var head := (content + 1) / 2;
        var tail := content - head;
        s[..head] + b.marker + s[|s| - tail..]
  }

  /** A truncated text is a beginning of the original, the marker, and — only if asked for — an
      end of the original that is at most one character shorter than the beginning. */
  lemma TextKeepsEnds(b: Budget, s: string, limit: nat, preserveTail: bool) returns (head: nat, tail: nat)
    requires |s| > limit > |b.marker|
    ensures head + tail + |b.marker| == limit && head + tail < |s|
    ensures Text(b, s, limit, preserveTail) == s[..head] + b.marker + s[|s| - tail..]
    ensures if preserveTail && limit - |b.marker| >= 2 then tail <= head <= tail + 1 else tail == 0
  {
    var content := limit - |b.marker|;
    head, tail := content, 0;
    if preserveTail && content >= 2 {
      head := (content + 1) / 2;
      tail := content - head;
    }
  }

  // --------------------------------------------------------------------------- sections

  function NonEmpty(values: seq<string>): seq<string> {
    if values == [] then []
    else
      var rest := NonEmpty(values[..|values| - 1]);
      var text := Strip(values[|values| - 1]);
      if text == [] then rest else rest + [text]
  }

  /** The parts are the values that are not blank, stripped, which stand at these places, in order. */
  ghost predicate Strips(at: seq<nat>, values: seq<string>, parts: seq<string>) {
    && |at| == |parts| && (forall i, j :: 0 <= i < j < |at| ==> at[i] < at[j])
    && (forall i :: 0 <= i < |at| ==> at[i] < |values| && parts[i] == Strip(values[at[i]]))
    && (forall k: nat :: k < |values| ==> (k in at <==> Strip(values[k]) != ""))
  }

  lemma StripsNext(at: seq<nat>, values: seq<string>, n: nat, parts: seq<string>)
    requires n < |values| && Strips(at, values[..n], parts)
    ensures Strip(values[n]) == "" ==> Strips(at, values[..n + 1], parts)
    ensures Strip(values[n]) != "" ==> Strips(at + [n], values[..n + 1], parts + [Strip(values[n])])
  {
    var before, after := values[..n], values[..n + 1];
    assert n !in at;
    assert forall k :: 0 <= k < n ==> before[k] == after[k];
    forall k: nat | k < n ensures k in at + [n] <==> k in at {
    }
  }

  lemma {:induction false} NonEmptyIs(values: seq<string>) returns (at: seq<nat>)
    ensures Strips(at, values, NonEmpty(values))
  {
    at := [];
    if values != [] {
      var n := |values| - 1;
      at := NonEmptyIs(values[..n]);
      StripsNext(at, values, n, NonEmpty(values[..n]));
      assert values[..n + 1] == values;
      at := if Strip(values[n]) == "" then at else at + [n];
    }
  }

  lemma {:induction false} JoinedGrows(parts: seq<string>, separator: string, k: nat)
    requires k <= |parts|
    ensures |Join(parts[..k], separator)| <= |Join(parts, separator)|
  {
    if k == |parts| {
      assert parts[..k] == parts;
    } else {
      JoinedGrows(parts[..|parts| - 1], separator, k);
      assert parts[..|parts| - 1][..k] == parts[..k];
    }
  }

  lemma {:induction false} NonEmptyGrows(values: seq<string>, k: nat)
    requires k <= |values|
    ensures NonEmpty(values[..k]) <= NonEmpty(values)
  {
    if k == |values| {
      assert values[..k] == values;
    } else {
      NonEmptyGrows(values[..|values| - 1], k);
      assert values[..|values| - 1][..k] == values[..k];
    }
  }

  /** Once a beginning is too long every longer one is. */
  lemma TooLong(all: seq<string>, next: seq<string>, separator: string, limit: nat)
    requires next <= all && |Join(next, separator)| > limit
    ensures forall k :: |next| <= k <= |all| ==> |Join(all[..k], separator)| > limit
  {
    forall k | |next| <= k <= |all| ensures |Join(all[..k], separator)| > limit {
      JoinedGrows(all[..k], separator, |next|);
      assert all[..k][..|next|] == next;
    }
  }

  /** The longest run of leading non-empty sections, stripped, whose joined text fits. */
  method Sections(values: seq<string>, limit: nat, separator: string) returns (selected: seq<string>)
    ensures selected <= NonEmpty(values) && |Join(selected, separator)| <= limit
    ensures forall k :: |selected| < k <= |NonEmpty(values)| ==> |Join(NonEmpty(values)[..k], separator)| > limit
  {
    selected := [];
    var used := 0;
    ghost var all := NonEmpty(values);
    var i := 0;
    while i < |values|
      invariant 0 <= i <= |values|
      invariant selected == NonEmpty(values[..i]) && used == |Join(selected, separator)| <= limit
    {
      NonEmptyGrows(values, i + 1);
      assert values[..i + 1][..i] == values[..i];
      var text := Strip(values[i]);
      if text != [] {
        var gap := if selected != [] then |separator| else 0;
        var next := selected + [text];
        assert next[..|selected|] == selected && NonEmpty(values[..i + 1]) == next;
        if used + gap + |text| > limit {
          TooLong(all, next, separator, limit);
          return;
        }
        selected, used := next, used + gap + |text|;
      }
      i := i + 1;
    }
    assert values[..i] == values;
  }
}
