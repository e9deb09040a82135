/** The Python string operations the core relies on: strip, startswith, split/join and ASCII lower-casing. */
module Text {
  import opened Wrappers

  /** Python's str.isspace(): the code points Python treats as whitespace. */
  predicate IsSpace(c: char) {
    c == ' ' || ('\t' <= c <= '\r') || ('\U{1C}' <= c <= '\U{1F}') || c == '\U{85}' || c == '\U{A0}'
    || c == '\U{1680}' || ('\U{2000}' <= c <= '\U{200A}') || c == '\U{2028}' || c == '\U{2029}'
    || c == '\U{202F}' || c == '\U{205F}' || c == '\U{3000}'
  }

  predicate AllSpace(s: string) {
    forall i | 0 <= i < |s| :: IsSpace(s[i])
  }

  /** The index of the first character of s at or after i that is not whitespace (|s| when there is none). */
  function SkipSpace(s: string, i: nat): (r: nat)
    requires i <= |s|
    ensures i <= r <= |s|
    ensures forall k | i <= k < r :: IsSpace(s[k])
    ensures r == |s| || !IsSpace(s[r])
    decreases |s| - i
  {
    if i < |s| && IsSpace(s[i]) then SkipSpace(s, i + 1) else i
  }

  /** The index just past the last character of s[lo..j] that is not whitespace (lo when there is none). */
  function SkipSpaceBack(s: string, lo: nat, j: nat): (r: nat)
    requires lo <= j <= |s|
    ensures lo <= r <= j
    ensures forall k | r <= k < j :: IsSpace(s[k])
    ensures r == lo || !IsSpace(s[r - 1])
    decreases j
  {
    if lo < j && IsSpace(s[j - 1]) then SkipSpaceBack(s, lo, j - 1) else j
  }

  /** s.strip(): s with its leading and its trailing whitespace removed. */
  function Strip(s: string): (r: string)
    ensures |r| <= |s|
    ensures r == [] || (!IsSpace(r[0]) && !IsSpace(r[|r| - 1]))
  {
    var i := SkipSpace(s, 0);
    var j := SkipSpaceBack(s, i, |s|);
    s[i..j]
  }

  /** What strip removes is whitespace at the two ends, and what it keeps is the infix between them. */
  lemma StripKeepsInfix(s: string) returns (i: nat)
    ensures i + |Strip(s)| <= |s|
    ensures Strip(s) == s[i..i + |Strip(s)|]
    ensures AllSpace(s[..i]) && AllSpace(s[i + |Strip(s)|..])
  {
    i := SkipSpace(s, 0);
    var j := SkipSpaceBack(s, i, |s|);
    assert AllSpace(s[..i]) by {
      forall k | 0 <= k < i ensures IsSpace(s[..i][k]) {
        assert s[..i][k] == s[k];
      }
    }
    assert AllSpace(s[j..]) by {
      forall k | 0 <= k < |s| - j ensures IsSpace(s[j..][k]) {
        assert s[j..][k] == s[j + k];
      }
    }
  }

  /** A string with no whitespace at either end is left alone by strip. */
  lemma StripOfStripped(s: string)
    requires s == [] || (!IsSpace(s[0]) && !IsSpace(s[|s| - 1]))
    ensures Strip(s) == s
  {
    assert SkipSpace(s, 0) == 0;
    assert s[0..|s|] == s;
  }

  /** Stripping twice is stripping once. */
  lemma StripIdempotent(s: string)
    ensures Strip(Strip(s)) == Strip(s)
  {
    StripOfStripped(Strip(s));
  }

  /** A string made only of whitespace strips to the empty string, and only such a string does. */
  lemma StripEmptyIffAllSpace(s: string)
    ensures Strip(s) == [] <==> AllSpace(s)
  {
    var i := SkipSpace(s, 0);
    if !AllSpace(s) {
      var k :| 0 <= k < |s| && !IsSpace(s[k]);
      assert i <= k;
      assert SkipSpaceBack(s, i, |s|) > k;
    }
  }

  /** A slice of a suffix is a slice of the whole. */
  lemma SliceOfDrop(s: string, k: nat, a: nat, b: nat)
    requires k <= |s| && a <= b <= |s| - k
    ensures s[k..][a..b] == s[k + a..k + b]
  {
  }

  /** A slice of a prefix is a slice of the whole. */
  lemma SliceOfTake(s: string, k: nat, a: nat, b: nat)
    requires k <= |s| && a <= b <= k
    ensures s[..k][a..b] == s[a..b]
  {
  }

  /** s.startswith(p) */
  predicate StartsWith(s: string, p: string) {
    |p| <= |s| && s[..|p|] == p
  }

  /** sep occurs in s at position j */
  predicate OccursAt(s: string, sep: string, j: int) {
    0 <= j && j + |sep| <= |s| && s[j..j + |sep|] == sep
  }

  predicate Contains(s: string, sep: string) {
    exists j | 0 <= j < |s| :: OccursAt(s, sep, j)
  }

  /** The leftmost position at or after `from` where sep occurs, if any. */
  function IndexFrom(s: string, sep: string, from: nat): (r: Option<nat>)
    requires |sep| > 0
    ensures r.Some? ==> from <= r.value && OccursAt(s, sep, r.value)
    ensures r.Some? ==> forall j | from <= j < r.value :: !OccursAt(s, sep, j)
    ensures r.None? ==> forall j | from <= j :: !OccursAt(s, sep, j)
    decreases |s| - from
  {
    if from + |sep| > |s| then None
    else if s[from..from + |sep|] == sep then Some(from)
    else IndexFrom(s, sep, from + 1)
  }

  /** No occurrence of sep starts before i, so none lies inside s[..i]. */
  lemma NoneInPrefix(s: string, sep: string, i: nat)
    requires |sep| > 0 && i <= |s|
    requires forall j | 0 <= j < i :: !OccursAt(s, sep, j)
    ensures !Contains(s[..i], sep)
  {
    forall j | OccursAt(s[..i], sep, j) ensures false {
      assert s[..i][j..j + |sep|] == s[j..j + |sep|];
      assert OccursAt(s, sep, j);
    }
  }

  /** s.split(sep) for a non-empty separator: the pieces between the non-overlapping occurrences of sep, scanned left to right. */
  function Split(s: string, sep: string): (parts: seq<string>)
    requires |sep| > 0
    ensures |parts| >= 1
    ensures forall k | 0 <= k < |parts| :: !Contains(parts[k], sep)
    decreases |s|
  {
    match IndexFrom(s, sep, 0)
    case None => [s]
    case Some(i) =>
      NoneInPrefix(s, sep, i);
      [s[..i]] + Split(s[i + |sep|..], sep)
  }

  /** sep.join(parts) */
  function Join(sep: string, parts: seq<string>): (r: string)
    ensures parts == [] ==> r == []
    ensures |parts| == 1 ==> r == parts[0]
  {
    if parts == [] then []
    else if |parts| == 1 then parts[0]
    else parts[0] + sep + Join(sep, parts[1..])
  }

  function Last<T>(xs: seq<T>): T
    requires |xs| > 0
  {
    xs[|xs| - 1]
  }

  /** Joining the pieces of a split with the same separator gives back the original string. */
  lemma {:induction false} JoinSplit(s: string, sep: string)
    requires |sep| > 0
    ensures Join(sep, Split(s, sep)) == s
    decreases |s|
  {
    match IndexFrom(s, sep, 0)
    case None =>
    case Some(i) =>
      var rest := s[i + |sep|..];
      var tail := Split(rest, sep);
      JoinSplit(rest, sep);
      JoinCons(sep, s[..i], tail);
      assert s == s[..i] + s[i..i + |sep|] + rest;
  }

  lemma JoinCons(sep: string, head: string, tail: seq<string>)
    requires |tail| >= 1
    ensures Join(sep, [head] + tail) == head + sep + Join(sep, tail)
  {
    assert ([head] + tail)[1..] == tail;
  }

  /** The character ch does not occur in s. */
  predicate FreeOf(s: string, ch: char) {
    forall j | 0 <= j < |s| :: s[j] != ch
  }

  lemma OccursAtOne(s: string, ch: char, j: int)
    ensures OccursAt(s, [ch], j) <==> 0 <= j < |s| && s[j] == ch
  {
    if 0 <= j < |s| {
      assert s[j..j + 1][0] == s[j];
      assert s[j] == ch ==> s[j..j + 1] == [ch];
    }
  }

  /** A one-character separator is contained exactly where the character occurs. */
  lemma FreeOfContains(s: string, ch: char)
    ensures FreeOf(s, ch) <==> !Contains(s, [ch])
  {
    forall j | 0 <= j < |s| ensures OccursAt(s, [ch], j) <==> s[j] == ch {
      OccursAtOne(s, ch, j);
    }
  }

  /** A text in which sep does not occur splits into itself alone. */
  lemma SplitFree(s: string, sep: string)
    requires |sep| > 0 && !Contains(s, sep)
    ensures Split(s, sep) == [s]
  {
  }

  /** Splitting on a one-character separator at its first occurrence. */
  lemma SplitAtFirst(a: string, ch: char, b: string)
    requires FreeOf(a, ch)
    ensures Split(a + [ch] + b, [ch]) == [a] + Split(b, [ch])
  {
    var s := a + [ch] + b;
    OccursAtOne(s, ch, |a|);
    forall j | 0 <= j < |a| ensures !OccursAt(s, [ch], j) {
      OccursAtOne(s, ch, j);
    }
    assert IndexFrom(s, [ch], 0) == Some(|a|);
    assert s[..|a|] == a && s[|a| + 1..] == b;
  }

  /** Every piece of a split of a text free of ch is free of ch. */
  lemma {:induction false} SplitPiecesFree(s: string, sep: string, ch: char)
    requires |sep| > 0 && FreeOf(s, ch)
    ensures forall k | 0 <= k < |Split(s, sep)| :: FreeOf(Split(s, sep)[k], ch)
    decreases |s|
  {
    match IndexFrom(s, sep, 0)
    case None =>
    case Some(i) =>
      var rest := s[i + |sep|..];
      SplitPiecesFree(rest, sep, ch);
      assert Split(s, sep) == [s[..i]] + Split(rest, sep);
  }

  /** s.split(sep)[-1]: the text after the last occurrence of sep, or all of s when sep does not occur. */
  function AfterLast(s: string, sep: string): (r: string)
    requires |sep| > 0
    ensures !Contains(r, sep)
    ensures !Contains(s, sep) ==> r == s
  {
    Last(Split(s, sep))
  }

  /** ASCII upper-case letters become lower case; every other character is kept. */
  function LowerChar(c: char): (r: char)
    ensures 'A' <= c <= 'Z' ==> r as int == c as int + 32
    ensures !('A' <= c <= 'Z') ==> r == c
    ensures !('A' <= r <= 'Z')
  {
    if 'A' <= c <= 'Z' then (c as int + 32) as char else c
  }

  /** s.lower(), restricted to the ASCII letters that the modelled inputs use. */
  function Lower(s: string): (r: string)
    ensures |r| == |s|
    ensures forall i | 0 <= i < |r| :: !('A' <= r[i] <= 'Z')
    ensures forall i | 0 <= i < |s| :: !('A' <= s[i] <= 'Z') ==> r[i] == s[i]
    ensures forall i | 0 <= i < |s| :: 'A' <= s[i] <= 'Z' ==> r[i] as int == s[i] as int + 32
  {
    seq(|s|, i requires 0 <= i < |s| => LowerChar(s[i]))
  }

  /** Lower-casing neither creates nor removes whitespace, and lower-casing twice is lower-casing once. */
  lemma LowerKeepsSpace(s: string)
    ensures forall i | 0 <= i < |s| :: IsSpace(Lower(s)[i]) == IsSpace(s[i])
    ensures Lower(Lower(s)) == Lower(s)
  {
  }
}
