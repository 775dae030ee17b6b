/** Character classes and string operations the source takes from JavaScript. */
module Texts {
  /** The characters of the regular expression class \s, which is also what `trim` removes. */
  predicate IsSpace(c: char) {
    || c == ' ' || '\t' <= c <= '\r' || c == '\U{00a0}' || c == '\U{1680}' || '\U{2000}' <= c <= '\U{200a}'
    || c == '\U{2028}' || c == '\U{2029}' || c == '\U{202f}' || c == '\U{205f}' || c == '\U{3000}' || c == '\U{feff}'
  }

  function LowerChar(c: char): char {
    if 'A' <= c <= 'Z' then c - 'A' + 'a' else c
  }

  function AsciiLower(s: string): (r: string)
    ensures |r| == |s| && forall i | 0 <= i < |s| :: r[i] == LowerChar(s[i])
  {
    seq(|s|, i requires 0 <= i < |s| => LowerChar(s[i]))
  }

  lemma AsciiLowerIdempotent(s: string)
    ensures AsciiLower(AsciiLower(s)) == AsciiLower(s)
  {
    var lower := AsciiLower(s);
    assert forall i | 0 <= i < |s| :: AsciiLower(lower)[i] == lower[i];
  }

  lemma LowerCaseIsFixed(s: string)
    requires forall i | 0 <= i < |s| :: !('A' <= s[i] <= 'Z')
    ensures AsciiLower(s) == s
  {
    assert forall i | 0 <= i < |s| :: AsciiLower(s)[i] == s[i];
  }

  predicate StartsWith(s: string, prefix: string) {
    prefix <= s
  }

  function TrimStart(s: string): string {
    if s != "" && IsSpace(s[0]) then TrimStart(s[1..]) else s
  }

  function TrimEnd(s: string): string {
    if s != "" && IsSpace(s[|s| - 1]) then TrimEnd(s[..|s| - 1]) else s
  }

  function Trim(s: string): string {
    TrimEnd(TrimStart(s))
  }

  lemma TrimFixed(s: string)
    requires s != "" && !IsSpace(s[0]) && !IsSpace(s[|s| - 1])
    ensures Trim(s) == s
  {
  }

  predicate AllSpaces(s: string) {
    forall i | 0 <= i < |s| :: IsSpace(s[i])
  }

  /** Text with something else than white space at both ends. */
  predicate IsTight(s: string) {
    s != "" && !IsSpace(s[0]) && !IsSpace(s[|s| - 1])
  }

  lemma {:induction false} TrimStartSkips(lead: string, rest: string)
    requires AllSpaces(lead) && (rest == "" || !IsSpace(rest[0]))
    ensures TrimStart(lead + rest) == rest
  {
    if lead == "" {
      assert lead + rest == rest;
    } else {
      TrimStartSkips(lead[1..], rest);
      assert (lead + rest)[1..] == lead[1..] + rest;
    }
  }

  lemma {:induction false} TrimEndSkips(front: string, tail: string)
    requires AllSpaces(tail) && (front == "" || !IsSpace(front[|front| - 1]))
    ensures TrimEnd(front + tail) == front
  {
    if tail == "" {
      assert front + tail == front;
    } else {
      var n := |tail| - 1;
      TrimEndSkips(front, tail[..n]);
      assert (front + tail)[..|front| + n] == front + tail[..n];
    }
  }

  /** Trimming takes away exactly the white space at both ends. */
  lemma TrimIs(lead: string, text: string, tail: string)
    requires AllSpaces(lead) && AllSpaces(tail) && IsTight(text)
    ensures Trim(lead + text + tail) == text
  {
    assert lead + text + tail == lead + (text + tail);
    TrimStartSkips(lead, text + tail);
    TrimEndSkips(text, tail);
  }

  lemma {:induction false} TrimStartSplits(s: string) returns (lead: string)
    ensures AllSpaces(lead) && s == lead + TrimStart(s) && (TrimStart(s) == "" || !IsSpace(TrimStart(s)[0]))
  {
    if s != "" && IsSpace(s[0]) {
      var rest := TrimStartSplits(s[1..]);
      lead := [s[0]] + rest;
      assert s == [s[0]] + s[1..];
    } else {
      lead := "";
    }
  }

  lemma {:induction false} TrimEndSplits(s: string) returns (tail: string)
    ensures AllSpaces(tail) && s == TrimEnd(s) + tail && (TrimEnd(s) == "" || !IsSpace(TrimEnd(s)[|TrimEnd(s)| - 1]))
    ensures TrimEnd(s) != "" ==> TrimEnd(s)[0] == s[0]
  {
    if s != "" && IsSpace(s[|s| - 1]) {
      var n := |s| - 1;
      var rest := TrimEndSplits(s[..n]);
      tail := rest + [s[n]];
      assert s == s[..n] + [s[n]];
    } else {
      tail := "";
    }
  }

  lemma TrimSplits(s: string) returns (lead: string, tail: string)
    ensures AllSpaces(lead) && AllSpaces(tail) && s == lead + Trim(s) + tail && (Trim(s) == "" || IsTight(Trim(s)))
  {
    lead := TrimStartSplits(s);
    tail := TrimEndSplits(TrimStart(s));
  }
}
