/** The handful of Python `str` operations the application relies on:
    `strip()`, `lower()`, `startswith`, `endswith` and `str.replace`, stated
    over `string` (a sequence of Unicode code points). `Count` (Python's
    `str.count`), `Split` and `Join` are not called by the application; they
    serve to reason about `replace`. */
module Text {

  /** Python's `str.isspace` for one code point: the characters `str.strip()`
      removes when it is called without arguments. */
  predicate IsSpace(c: char) {
    c == ' ' || ('\t' <= c <= '\r') || ('\U{1C}' <= c <= '\U{1F}')
    || c == '\U{85}' || c == '\U{A0}' || c == '\U{1680}'
    || ('\U{2000}' <= c <= '\U{200A}') || c == '\U{2028}' || c == '\U{2029}'
    || c == '\U{202F}' || c == '\U{205F}' || c == '\U{3000}'
  }

  /** Neither the first nor the last character of `s` is whitespace. */
  predicate NoEdgeSpace(s: string) {
    s == [] || (!IsSpace(s[0]) && !IsSpace(s[|s| - 1]))
  }

  /** Drops the leading whitespace of `s`: what is left is empty or starts
      with a non-whitespace character, and text that already starts with one
      is left as it is. */
  function TrimStart(s: string): (r: string)
    ensures |r| <= |s|
    ensures r == [] || !IsSpace(r[0])
    ensures s == [] || !IsSpace(s[0]) ==> r == s
    decreases |s|
  {
    if |s| > 0 && IsSpace(s[0]) then TrimStart(s[1..]) else s
  }

  /** Drops the trailing whitespace of `s`: what is left is empty or ends
      with a non-whitespace character, and text that already ends with one
      is left as it is. */
  function TrimEnd(s: string): (r: string)
    ensures |r| <= |s|
    ensures r == [] || !IsSpace(r[|r| - 1])
    ensures s == [] || !IsSpace(s[|s| - 1]) ==> r == s
    decreases |s|
  {
    if |s| > 0 && IsSpace(s[|s| - 1]) then TrimEnd(s[..|s| - 1]) else s
  }

  /** `TrimStart` keeps a suffix, and everything it drops is whitespace. */
  lemma {:induction false} TrimStartIsSuffix(s: string)
    ensures TrimStart(s) == s[|s| - |TrimStart(s)|..]
    ensures forall i :: 0 <= i < |s| - |TrimStart(s)| ==> IsSpace(s[i])
    decreases |s|
  {
    if |s| > 0 && IsSpace(s[0]) {
      TrimStartIsSuffix(s[1..]);
      forall i | 1 <= i < |s| - |TrimStart(s)| ensures IsSpace(s[i]) {
        assert s[i] == s[1..][i - 1];
      }
    }
  }

  /** `TrimEnd` keeps a prefix, and everything it drops is whitespace. */
  lemma {:induction false} TrimEndIsPrefix(s: string)
    ensures TrimEnd(s) == s[..|TrimEnd(s)|]
    ensures forall i :: |TrimEnd(s)| <= i < |s| ==> IsSpace(s[i])
    decreases |s|
  {
    if |s| > 0 && IsSpace(s[|s| - 1]) {
      var u := s[..|s| - 1];
      var m := |TrimEnd(u)|;
      TrimEndIsPrefix(u);
      assert TrimEnd(s) == TrimEnd(u);
      assert u[..m] == s[..m];
      forall i | m <= i < |s| ensures IsSpace(s[i]) {
        if i < |u| {
          assert s[i] == u[i];
        }
      }
    }
  }

  /** Python's `s.strip()`. */
  function Strip(s: string): (r: string)
    ensures NoEdgeSpace(r)
    ensures |r| <= |s|
    ensures NoEdgeSpace(s) ==> r == s
  {
    var t := TrimStart(s);
    TrimEndIsPrefix(t);
    TrimEnd(t)
  }

  /** `strip()` keeps one contiguous slice of the text, from the first to the
      last non-whitespace character: everything before and after it is
      whitespace. */
  lemma StripIsSlice(s: string)
    ensures var i := |s| - |TrimStart(s)|;
            && i + |Strip(s)| <= |s|
            && Strip(s) == s[i..i + |Strip(s)|]
            && (forall k :: 0 <= k < i ==> IsSpace(s[k]))
            && (forall k :: i + |Strip(s)| <= k < |s| ==> IsSpace(s[k]))
  {
    var t := TrimStart(s);
    var i := |s| - |t|;
    var r := Strip(s);
    assert t == s[i..] && forall k :: 0 <= k < i ==> IsSpace(s[k]) by {
      TrimStartIsSuffix(s);
    }
    assert r == t[..|r|] && forall k :: |r| <= k < |t| ==> IsSpace(t[k]) by {
      TrimEndIsPrefix(t);
    }
    assert r == s[i..i + |r|];
    SpaceShiftsBack(s, i, |r|);
  }

  /** Whitespace at the end of the suffix `s[i..]` is whitespace at the end
      of `s`. */
  lemma SpaceShiftsBack(s: string, i: nat, n: nat)
    requires i + n <= |s|
    requires forall k :: n <= k < |s[i..]| ==> IsSpace(s[i..][k])
    ensures forall k :: i + n <= k < |s| ==> IsSpace(s[k])
  {
    forall k | i + n <= k < |s| ensures IsSpace(s[k]) {
      assert s[k] == s[i..][k - i];
    }
  }

  /** Stripping twice is stripping once. */
  lemma StripIdempotent(s: string)
    ensures Strip(Strip(s)) == Strip(s)
  {
  }

  /** Python's `lower()` on one character, restricted to ASCII: upper-case
      letters become lower-case letters, nothing else changes, and whitespace
      stays whitespace. */
  function LowerChar(c: char): (d: char)
    ensures 'A' <= c <= 'Z' ==> 'a' <= d <= 'z' && d as int - 'a' as int == c as int - 'A' as int
    ensures !('A' <= c <= 'Z') ==> d == c
    ensures IsSpace(d) <==> IsSpace(c)
  {
    if 'A' <= c <= 'Z' then (c as int - 'A' as int + 'a' as int) as char else c
  }

  /** Python's `s.lower()`, character by character. */
  function Lower(s: string): (r: string)
    ensures |r| == |s|
  {
    if s == [] then [] else [LowerChar(s[0])] + Lower(s[1..])
  }

  /** Lower-casing works on each character by itself. */
  lemma {:induction false} LowerAt(s: string, i: nat)
    requires i < |s|
    ensures Lower(s)[i] == LowerChar(s[i])
  {
    if i > 0 {
      LowerAt(s[1..], i - 1);
    }
  }

  /** Python's `s.startswith(p)`. */
  predicate StartsWith(s: string, p: string) {
    |p| <= |s| && s[..|p|] == p
  }

  /** Python's `s.endswith(p)`. */
  predicate EndsWith(s: string, p: string) {
    |p| <= |s| && s[|s| - |p|..] == p
  }

  /** `pat` occurs in `s` starting at index `i`. */
  predicate MatchesAt(s: string, pat: string, i: nat) {
    i + |pat| <= |s| && s[i..i + |pat|] == pat
  }

  /** `pat in s`, Python's substring test. */
  ghost predicate Occurs(s: string, pat: string) {
    exists i: nat :: MatchesAt(s, pat, i)
  }

  /** Python's `s.count(pat)`: the number of non-overlapping occurrences of
      `pat`, scanning from the left. It measures what `ReplaceAll` replaces. */
  function Count(s: string, pat: string): (n: nat)
    requires |pat| > 0
    decreases |s|
  {
    if |s| < |pat| then 0
    else if s[..|pat|] == pat then 1 + Count(s[|pat|..], pat)
    else Count(s[1..], pat)
  }

  /** Python's `s.replace(pat, rep)`: every non-overlapping occurrence of
      `pat`, found scanning from the left, is replaced by `rep`. */
  function ReplaceAll(s: string, pat: string, rep: string): (r: string)
    requires |pat| > 0
    decreases |s|
  {
    if |s| < |pat| then s
    else if s[..|pat|] == pat then rep + ReplaceAll(s[|pat|..], pat, rep)
    else [s[0]] + ReplaceAll(s[1..], pat, rep)
  }

  /** Python's `s.split(pat)`: the pieces of `s` between the non-overlapping
      occurrences of `pat`, found scanning from the left. There is always at
      least one piece. */
  function Split(s: string, pat: string): (parts: seq<string>)
    requires |pat| > 0
    ensures |parts| >= 1
    decreases |s|
  {
    if |s| < |pat| then [s]
    else if s[..|pat|] == pat then [[]] + Split(s[|pat|..], pat)
    else
      var rest := Split(s[1..], pat);
      [[s[0]] + rest[0]] + rest[1..]
  }

  /** Python's `sep.join(parts)`. */
  function Join(parts: seq<string>, sep: string): (r: string)
    requires |parts| >= 1
  {
    if |parts| == 1 then parts[0] else parts[0] + sep + Join(parts[1..], sep)
  }

  // ---------------------------------------------------------------------
  // Properties of the search-and-replace functions
  // ---------------------------------------------------------------------

  /** An occurrence in `s` is either at the front or an occurrence in `s[1..]`
      shifted by one. */
  lemma OccursShift(s: string, pat: string)
    requires |s| > 0
    ensures Occurs(s, pat) <==> (MatchesAt(s, pat, 0) || Occurs(s[1..], pat))
  {
    var t := s[1..];
    if Occurs(s, pat) && !MatchesAt(s, pat, 0) {
      var i: nat :| MatchesAt(s, pat, i);
      assert i > 0;
      SliceShift(s, i - 1, |pat|);
      assert MatchesAt(t, pat, i - 1);
    }
    if Occurs(t, pat) {
      var j: nat :| MatchesAt(t, pat, j);
      SliceShift(s, j, |pat|);
      assert MatchesAt(s, pat, j + 1);
    }
  }

  /** A slice of `s[1..]` is the slice of `s` one position further on. */
  lemma SliceShift(s: string, j: nat, n: nat)
    requires j + 1 + n <= |s|
    ensures s[1..][j..j + n] == s[j + 1..j + 1 + n]
  {
  }

  /** A string shorter than the pattern cannot contain it. */
  lemma ShortHasNoOccurrence(s: string, pat: string)
    requires |s| < |pat|
    ensures !Occurs(s, pat)
  {
  }

  /** The count is zero exactly when the pattern does not occur. */
  lemma {:induction false} CountZeroIffAbsent(s: string, pat: string)
    requires |pat| > 0
    ensures Count(s, pat) == 0 <==> !Occurs(s, pat)
    decreases |s|
  {
    if |s| < |pat| {
      ShortHasNoOccurrence(s, pat);
    } else if s[..|pat|] == pat {
      assert MatchesAt(s, pat, 0);
    } else {
      OccursShift(s, pat);
      CountZeroIffAbsent(s[1..], pat);
    }
  }

  /** Each replacement changes the length by `|rep| - |pat|` and nothing else
      changes it. */
  lemma {:induction false} ReplaceAllLength(s: string, pat: string, rep: string)
    requires |pat| > 0
    ensures |ReplaceAll(s, pat, rep)| == |s| + Count(s, pat) * (|rep| - |pat|)
    decreases |s|
  {
    if |s| < |pat| {
    } else if s[..|pat|] == pat {
      var rest := s[|pat|..];
      ReplaceAllLength(rest, pat, rep);
      MulSucc(Count(rest, pat), |rep| - |pat|);
    } else {
      ReplaceAllLength(s[1..], pat, rep);
    }
  }

  /** One more factor of `d`. */
  lemma MulSucc(k: int, d: int)
    ensures (k + 1) * d == k * d + d
  {
  }

  /** A product of two positive numbers is positive. */
  lemma MulPositive(k: int, d: int)
    requires k >= 1 && d >= 1
    ensures k * d >= 1
  {
  }

  /** Text that does not contain the pattern comes back unchanged. */
  lemma {:induction false} ReplaceAllAbsent(s: string, pat: string, rep: string)
    requires |pat| > 0
    requires !Occurs(s, pat)
    ensures ReplaceAll(s, pat, rep) == s
    decreases |s|
  {
    if |s| >= |pat| {
      assert !MatchesAt(s, pat, 0);
      OccursShift(s, pat);
      ReplaceAllAbsent(s[1..], pat, rep);
    }
  }

  /** Prepending one character to the first piece prepends it to the join. */
  lemma JoinConsHead(c: char, parts: seq<string>, sep: string)
    requires |parts| >= 1
    ensures Join([[c] + parts[0]] + parts[1..], sep) == [c] + Join(parts, sep)
  {
    var q := [[c] + parts[0]] + parts[1..];
    assert q[1..] == parts[1..];
  }

  /** The reference reading of `str.replace`: split at every occurrence and
      join the pieces back with the replacement. */
  lemma {:induction false} ReplaceAllIsSplitJoin(s: string, pat: string, rep: string)
    requires |pat| > 0
    ensures ReplaceAll(s, pat, rep) == Join(Split(s, pat), rep)
    decreases |s|
  {
    if |s| < |pat| {
    } else if s[..|pat|] == pat {
      ReplaceAllIsSplitJoin(s[|pat|..], pat, rep);
      var parts := Split(s, pat);
      assert parts[1..] == Split(s[|pat|..], pat);
    } else {
      ReplaceAllIsSplitJoin(s[1..], pat, rep);
      JoinConsHead(s[0], Split(s[1..], pat), rep);
    }
  }

  /** Replacing the pattern by itself changes nothing. */
  lemma {:induction false} ReplaceAllSelf(s: string, pat: string)
    requires |pat| > 0
    ensures ReplaceAll(s, pat, pat) == s
    decreases |s|
  {
    if |s| < |pat| {
    } else if s[..|pat|] == pat {
      ReplaceAllSelf(s[|pat|..], pat);
      assert s == s[..|pat|] + s[|pat|..];
    } else {
      ReplaceAllSelf(s[1..], pat);
      assert s == [s[0]] + s[1..];
    }
  }

  /** Splitting and joining back with the same separator restores the text:
      the pieces together with the occurrences cover all of it. */
  lemma SplitJoinRoundTrip(s: string, pat: string)
    requires |pat| > 0
    ensures Join(Split(s, pat), pat) == s
  {
    ReplaceAllIsSplitJoin(s, pat, pat);
    ReplaceAllSelf(s, pat);
  }

  /** The first piece of a split is a prefix of the text. */
  lemma SplitHeadIsPrefix(s: string, pat: string)
    requires |pat| > 0
    ensures StartsWith(s, Split(s, pat)[0])
  {
    var parts := Split(s, pat);
    SplitJoinRoundTrip(s, pat);
    if |parts| > 1 {
      assert s == parts[0] + (pat + Join(parts[1..], pat));
    }
  }

  /** No piece of a split contains the pattern: every occurrence was cut. */
  lemma {:induction false} SplitPiecesAreFree(s: string, pat: string)
    requires |pat| > 0
    ensures forall k :: 0 <= k < |Split(s, pat)| ==> !Occurs(Split(s, pat)[k], pat)
    decreases |s|
  {
    var parts := Split(s, pat);
    if |s| < |pat| {
      ShortHasNoOccurrence(s, pat);
    } else if s[..|pat|] == pat {
      SplitPiecesAreFree(s[|pat|..], pat);
      assert parts[1..] == Split(s[|pat|..], pat);
      assert !Occurs(parts[0], pat) by { ShortHasNoOccurrence(parts[0], pat); }
      forall k | 1 <= k < |parts| ensures !Occurs(parts[k], pat) {
        assert parts[k] == Split(s[|pat|..], pat)[k - 1];
      }
    } else {
      var rest := Split(s[1..], pat);
      SplitPiecesAreFree(s[1..], pat);
      var head := [s[0]] + rest[0];
      assert parts[0] == head;
      SplitHeadIsPrefix(s[1..], pat);
      assert head == s[..|head|];
      assert !MatchesAt(head, pat, 0) by {
        if |pat| <= |head| {
          assert head[..|pat|] == s[..|pat|];
        }
      }
      assert head[1..] == rest[0];
      OccursShift(head, pat);
      forall k | 1 <= k < |parts| ensures !Occurs(parts[k], pat) {
        assert parts[k] == rest[k];
      }
    }
  }
}
