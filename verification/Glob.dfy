/**
 The iterative glob matcher of frontend/src/searchExpression.ts, which keeps only the last `*`
 to fall back on, against the declarative meaning of `*` and `?`.
 */
module Glob {
  /** The meaning of a pattern: `?` is any one character, `*` is any run of characters. */
  predicate Matches(value: string, pattern: string)
    decreases |pattern|, |value|
  {
    if pattern == "" then value == ""
    else if pattern[0] == '*' then
      Matches(value, pattern[1..]) || (value != "" && Matches(value[1..], pattern))
    else value != "" && (pattern[0] == '?' || pattern[0] == value[0]) && Matches(value[1..], pattern[1..])
  }

  /** What the matcher decides: a `*` that meets a literal `*` in the value is spent on that character. */
  predicate Accepts(value: string, pattern: string)
    decreases |pattern|, |value|
  {
    if value == "" then AllStars(pattern)
    else if pattern == "" then false
    else if pattern[0] == '?' || pattern[0] == value[0] then Accepts(value[1..], pattern[1..])
    else pattern[0] == '*' && (Accepts(value, pattern[1..]) || AcceptsLater(value, pattern[1..]))
  }

  /** Some proper suffix of the value is accepted. */
  predicate AcceptsLater(value: string, pattern: string)
    decreases |pattern|, |value|, 0
  {
    value != "" && (Accepts(value[1..], pattern) || AcceptsLater(value[1..], pattern))
  }

  predicate AllStars(pattern: string) {
    pattern == "" || (pattern[0] == '*' && AllStars(pattern[1..]))
  }

  lemma {:induction false} SuffixOfStars(pattern: string, k: nat)
    requires AllStars(pattern) && k <= |pattern|
    ensures AllStars(pattern[k..])
  {
    if k > 0 {
      SuffixOfStars(pattern[1..], k - 1);
      assert pattern[1..][k - 1..] == pattern[k..];
    }
  }

  /** Some suffix of the value at or after `from` is accepted by the pattern from `at` on. */
  ghost predicate AcceptsFrom(value: string, from: nat, pattern: string, at: nat)
    requires from <= |value| && at <= |pattern|
  {
    exists k: nat | from <= k <= |value| :: Accepts(value[k..], pattern[at..])
  }

  lemma {:induction false} AcceptsLaterIsSuffix(value: string, pattern: string)
    ensures AcceptsLater(value, pattern) <==> exists k: nat | 0 < k <= |value| :: Accepts(value[k..], pattern)
    decreases |value|
  {
    if value != "" {
      AcceptsLaterIsSuffix(value[1..], pattern);
      if AcceptsLater(value[1..], pattern) {
        var k: nat :| 0 < k <= |value[1..]| && Accepts(value[1..][k..], pattern);
        assert value[1..][k..] == value[k + 1..];
      }
      forall k: nat | 1 < k <= |value| && Accepts(value[k..], pattern)
        ensures AcceptsLater(value[1..], pattern)
      {
        assert value[1..][k - 1..] == value[k..];
      }
    }
  }

  /** A `*` facing any other character lets the rest of the pattern start anywhere. */
  lemma StarAcceptsFrom(value: string, at: nat, pattern: string, star: nat)
    requires at < |value| && star < |pattern| && pattern[star] == '*' && value[at] != '*'
    ensures Accepts(value[at..], pattern[star..]) <==> AcceptsFrom(value, at, pattern, star + 1)
  {
    var v, p := value[at..], pattern[star + 1..];
    assert pattern[star..][1..] == p;
    AcceptsLaterIsSuffix(v, p);
    if AcceptsLater(v, p) {
      var k: nat :| 0 < k <= |v| && Accepts(v[k..], p);
      assert v[k..] == value[at + k..];
    }
    forall k: nat | at < k <= |value| && Accepts(value[k..], p)
      ensures AcceptsLater(v, p)
    {
      assert v[k - at..] == value[k..];
    }
  }

  /** The literal segment pattern[seg..pi] lies character by character on value[at..at + pi - seg]. */
  ghost predicate Aligned(value: string, at: nat, pattern: string, seg: nat, pi: nat)
    requires seg <= pi <= |pattern| && at + pi - seg <= |value|
  {
    forall i | seg <= i < pi :: pattern[i] == '?' || pattern[i] == value[at - seg + i]
  }

  /** If the segment after the last star first fits at `at`, a later fit reaches the next star no
      earlier; so nothing is lost by forgetting the last star. */
  lemma {:induction false} NextStarDominates(value: string, at: nat, pattern: string, seg: nat, pi: nat, j: nat, q: nat)
    requires seg <= q <= pi < |pattern| && at + pi - seg <= |value|
    requires Aligned(value, at, pattern, seg, pi) && pattern[pi] == '*'
    requires at + q - seg <= j <= |value| && Accepts(value[j..], pattern[q..])
    ensures AcceptsFrom(value, at + pi - seg, pattern, pi + 1)
    decreases pi - q, |value| - j
  {
    var v, p := value[j..], pattern[q..];
    if v == "" {
      SuffixOfStars(p, pi + 1 - q);
      assert p[pi + 1 - q..] == pattern[pi + 1..] && value[|value|..] == "";
      assert Accepts(value[|value|..], pattern[pi + 1..]);
    } else if q == pi {
      assert p[1..] == pattern[pi + 1..];
      if v[0] == '*' {
        assert v[1..] == value[j + 1..];
      } else {
        StarAcceptsFrom(value, j, pattern, pi);
        var k: nat :| j <= k <= |value| && Accepts(value[k..], pattern[pi + 1..]);
      }
    } else if p[0] == '?' || p[0] == v[0] {
      assert v[1..] == value[j + 1..] && p[1..] == pattern[q + 1..];
      NextStarDominates(value, at, pattern, seg, pi, j + 1, q + 1);
    } else {
      assert pattern[q] == p[0] && value[j] == v[0];
      assert j > at + q - seg;
      StarAcceptsFrom(value, j, pattern, q);
      var k: nat :| j <= k <= |value| && Accepts(value[k..], pattern[q + 1..]);
      NextStarDominates(value, at, pattern, seg, pi, k, q + 1);
    }
  }

  /** Where the matcher stands: the segment since the last star is aligned, and the verdict on the
      whole is what remains to be decided. */
  ghost predicate OnTrack(value: string, vi: nat, pattern: string, pi: nat, star: int, starValue: nat) {
    && vi <= |value| && pi <= |pattern| && -1 <= star < |pattern| && starValue <= |value|
    && (star >= 0 ==>
          && star < pi && vi - starValue == pi - star - 1
          && Aligned(value, starValue, pattern, star + 1, pi)
          && (Accepts(value[starValue..], pattern[star + 1..]) <==> Accepts(value[vi..], pattern[pi..])))
    && (Accepts(value, pattern) <==>
          if star < 0 then Accepts(value[vi..], pattern[pi..]) else AcceptsFrom(value, starValue, pattern, star + 1))
  }

  lemma LiteralStep(value: string, vi: nat, pattern: string, pi: nat, star: int, starValue: nat)
    requires OnTrack(value, vi, pattern, pi, star, starValue) && vi < |value| && pi < |pattern|
    requires pattern[pi] == '?' || pattern[pi] == value[vi]
    ensures OnTrack(value, vi + 1, pattern, pi + 1, star, starValue)
  {
    assert value[vi..][1..] == value[vi + 1..] && pattern[pi..][1..] == pattern[pi + 1..];
  }

  lemma StarStep(value: string, vi: nat, pattern: string, pi: nat, star: int, starValue: nat)
    requires OnTrack(value, vi, pattern, pi, star, starValue) && vi < |value| && pi < |pattern|
    requires pattern[pi] == '*' && value[vi] != '*'
    ensures OnTrack(value, vi, pattern, pi + 1, pi, vi)
  {
    StarAcceptsFrom(value, vi, pattern, pi);
    if star >= 0 && AcceptsFrom(value, starValue, pattern, star + 1) {
      var k: nat :| starValue <= k <= |value| && Accepts(value[k..], pattern[star + 1..]);
      NextStarDominates(value, starValue, pattern, star + 1, pi, k, star + 1);
    }
  }

  lemma FallBackStep(value: string, vi: nat, pattern: string, pi: nat, star: int, starValue: nat)
    requires OnTrack(value, vi, pattern, pi, star, starValue) && vi < |value| && star >= 0
    requires pi < |pattern| ==> pattern[pi] != '?' && pattern[pi] != value[vi] && pattern[pi] != '*'
    ensures starValue < |value| && OnTrack(value, starValue + 1, pattern, star + 1, star, starValue + 1)
  {
    assert !Accepts(value[vi..], pattern[pi..]);
    if AcceptsFrom(value, starValue, pattern, star + 1) {
      var k: nat :| starValue <= k <= |value| && Accepts(value[k..], pattern[star + 1..]);
      assert k != starValue;
    }
  }

  method GlobMatches(value: string, pattern: string) returns (matched: bool)
    ensures matched <==> Accepts(value, pattern)
  {
    var valueIndex, patternIndex, starIndex, starValueIndex := 0, 0, -1, 0;
    assert value[0..] == value && pattern[0..] == pattern;
    while valueIndex < |value|
      invariant 0 <= valueIndex && 0 <= patternIndex && 0 <= starValueIndex
      invariant OnTrack(value, valueIndex, pattern, patternIndex, starIndex, starValueIndex)
      decreases |pattern| - starIndex, |value| - starValueIndex, |value| - valueIndex
    {
      if patternIndex < |pattern| && (pattern[patternIndex] == '?' || pattern[patternIndex] == value[valueIndex]) {
        LiteralStep(value, valueIndex, pattern, patternIndex, starIndex, starValueIndex);
        valueIndex, patternIndex := valueIndex + 1, patternIndex + 1;
      } else if patternIndex < |pattern| && pattern[patternIndex] == '*' {
        StarStep(value, valueIndex, pattern, patternIndex, starIndex, starValueIndex);
        starIndex := patternIndex;
        patternIndex := patternIndex + 1;
        starValueIndex := valueIndex;
      } else if starIndex >= 0 {
        FallBackStep(value, valueIndex, pattern, patternIndex, starIndex, starValueIndex);
        patternIndex := starIndex + 1;
        starValueIndex := starValueIndex + 1;
        valueIndex := starValueIndex;
      } else {
        return false;
      }
    }
    assert value[valueIndex..] == "";
    if starIndex >= 0 {
      ExhaustedValue(value, starValueIndex, pattern, starIndex + 1, patternIndex);
    }
    while patternIndex < |pattern| && pattern[patternIndex] == '*'
      invariant 0 <= patternIndex <= |pattern|
      invariant Accepts(value, pattern) <==> AllStars(pattern[patternIndex..])
    {
      assert pattern[patternIndex..][1..] == pattern[patternIndex + 1..];
      patternIndex := patternIndex + 1;
    }
    matched := patternIndex == |pattern|;
  }

  /** When the value is used up, only the current alignment is left. */
  lemma ExhaustedValue(value: string, starValue: nat, pattern: string, seg: nat, pi: nat)
    requires seg <= pi <= |pattern| && starValue <= |value| && |value| - starValue == pi - seg
    requires Aligned(value, starValue, pattern, seg, pi)
    requires Accepts(value[starValue..], pattern[seg..]) <==> Accepts("", pattern[pi..])
    ensures AcceptsFrom(value, starValue, pattern, seg) <==> AllStars(pattern[pi..])
  {
    if AcceptsFrom(value, starValue, pattern, seg) {
      var k: nat :| starValue <= k <= |value| && Accepts(value[k..], pattern[seg..]);
      RestIsStars(value, starValue, pattern, seg, pi, k, seg);
    }
  }

  lemma {:induction false} RestIsStars(value: string, at: nat, pattern: string, seg: nat, pi: nat, j: nat, q: nat)
    requires seg <= q <= pi <= |pattern| && at + pi - seg == |value|
    requires Aligned(value, at, pattern, seg, pi)
    requires at + q - seg <= j <= |value| && Accepts(value[j..], pattern[q..])
    ensures AllStars(pattern[pi..])
    decreases pi - q
  {
    var v, p := value[j..], pattern[q..];
    if v == "" {
      SuffixOfStars(p, pi - q);
      assert p[pi - q..] == pattern[pi..];
    } else if p[0] == '?' || p[0] == v[0] {
      assert v[1..] == value[j + 1..] && p[1..] == pattern[q + 1..];
      RestIsStars(value, at, pattern, seg, pi, j + 1, q + 1);
    } else {
      assert pattern[q] == p[0] && value[j] == v[0];
      assert q < pi;
      StarAcceptsFrom(value, j, pattern, q);
      var k: nat :| j <= k <= |value| && Accepts(value[k..], pattern[q + 1..]);
      RestIsStars(value, at, pattern, seg, pi, k, q + 1);
    }
  }

  // ---- the matcher against the meaning --------------------------------------------------

  lemma {:induction false} StarsMatchAll(value: string, pattern: string)
    requires AllStars(pattern) && pattern != ""
    ensures Matches(value, pattern)
    decreases |pattern|, |value|
  {
    if value != "" {
      StarsMatchAll(value[1..], pattern);
    } else if |pattern| > 1 {
      StarsMatchAll(value, pattern[1..]);
    }
  }

  lemma {:induction false} MatchesEmpty(pattern: string)
    ensures Matches("", pattern) <==> AllStars(pattern)
  {
    if pattern != "" {
      MatchesEmpty(pattern[1..]);
    }
  }

  /** A match is never wrong, whatever the value and the pattern hold. */
  lemma {:induction false} Sound(value: string, pattern: string)
    requires Accepts(value, pattern)
    ensures Matches(value, pattern)
    decreases |pattern|, |value|
  {
    if value == "" {
      MatchesEmpty(pattern);
    } else if pattern[0] == '?' || pattern[0] == value[0] {
      Sound(value[1..], pattern[1..]);
      if pattern[0] == '*' {
        assert Matches(value[1..], pattern);
      }
    } else if Accepts(value, pattern[1..]) {
      Sound(value, pattern[1..]);
    } else {
      SoundLater(value, pattern);
    }
  }

  lemma {:induction false} SoundLater(value: string, pattern: string)
    requires pattern != "" && pattern[0] == '*' && AcceptsLater(value, pattern[1..])
    ensures Matches(value, pattern)
    decreases |pattern|, |value|, 0
  {
    if Accepts(value[1..], pattern[1..]) {
      Sound(value[1..], pattern[1..]);
      assert Matches(value[1..], pattern);
    } else {
      SoundLater(value[1..], pattern);
    }
  }

  /** No match is missed when the value holds no `*`. */
  lemma {:induction false} CompleteWithoutStars(value: string, pattern: string)
    requires Matches(value, pattern) && '*' !in value
    ensures Accepts(value, pattern)
    decreases |pattern|, |value|
  {
    if value == "" {
      MatchesEmpty(pattern);
    } else if pattern[0] == '*' {
      if Matches(value, pattern[1..]) {
        CompleteWithoutStars(value, pattern[1..]);
      } else {
        assert pattern[0] != value[0];
        CompleteWithoutStars(value[1..], pattern);
        LaterThroughStar(value, pattern);
      }
    } else {
      CompleteWithoutStars(value[1..], pattern[1..]);
    }
  }

  lemma LaterThroughStar(value: string, pattern: string)
    requires value != "" && '*' !in value && pattern != "" && pattern[0] == '*' && Accepts(value[1..], pattern)
    ensures AcceptsLater(value, pattern[1..])
  {
    if |value| == 1 {
      assert value[1..] == "";
    }
  }

  /** The matcher agrees with the meaning of every pattern exactly on the values without a `*`. */
  lemma ExactIffNoStar(value: string)
    ensures (forall pattern :: Accepts(value, pattern) <==> Matches(value, pattern)) <==> '*' !in value
  {
    if '*' !in value {
      forall pattern
        ensures Accepts(value, pattern) <==> Matches(value, pattern)
      {
        if Accepts(value, pattern) {
          Sound(value, pattern);
        }
        if Matches(value, pattern) {
          CompleteWithoutStars(value, pattern);
        }
      }
    } else {
      var pattern := MissedPattern(value);
      assert Accepts(value, pattern) != Matches(value, pattern);
    }
  }

  /** For every value with a `*` there is a pattern whose match is missed. */
  lemma {:induction false} MissedPattern(value: string) returns (pattern: string)
    requires '*' in value
    ensures Matches(value, pattern) && !Accepts(value, pattern)
    ensures pattern != "" && (value[0] != '*' ==> pattern[0] == value[0])
  {
    if value[0] != '*' {
      var rest := MissedPattern(value[1..]);
      pattern := [value[0]] + rest;
      assert pattern[1..] == rest;
    } else if |value| == 1 {
      pattern := "*?";
      assert pattern[1..] == "?" && pattern[1..][1..] == "" && value[1..] == "";
      assert Matches(value, "?");
      assert !AllStars("?");
    } else {
      pattern := "*";
      assert pattern[1..] == "";
      StarsMatchAll(value, pattern);
    }
  }

  /** A pattern without wildcards matches only itself. */
  lemma {:induction false} LiteralMatches(value: string, pattern: string)
    requires '*' !in pattern && '?' !in pattern
    ensures Matches(value, pattern) <==> value == pattern
  {
    if pattern != "" && value != "" {
      LiteralMatches(value[1..], pattern[1..]);
      assert value == [value[0]] + value[1..] && pattern == [pattern[0]] + pattern[1..];
    }
  }
}
