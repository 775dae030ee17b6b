/**
 What the natural order of tag names (frontend/src/tagOrder.ts) means for the names themselves:
 numbers inside names sort by their value, texts sort without regard to case, a value sorts before
 everything that continues it, and the namespace decides only between equal values.
 */
module NaturalLaws {
  import Decimals
  import opened NaturalOrder

  // ---- common beginnings -----------------------------------------------------------------------------------

  /** A run ends in front of this position, or the text starts or ends here. */
  predicate Boundary(s: Text, k: nat) {
    k <= |s| && (0 < k < |s| ==> IsDigit(s[k - 1]) != IsDigit(s[k]))
  }

  ghost predicate SharesRuns(l: Text, r: Text, k: nat) {
    Boundary(l, k) && Boundary(r, k) && l[..k] == r[..k]
  }

  lemma SharedAt(l: Text, r: Text, k: nat, i: nat)
    requires SharesRuns(l, r, k) && i < k
    ensures l[i] == r[i]
  {
    assert l[..k][i] == r[..k][i];
  }

  /** A run that starts in the common beginning ends in it, at the same place in both. */
  lemma SharedRun(l: Text, r: Text, k: nat, i: nat)
    requires SharesRuns(l, r, k) && i < k
    ensures var e := RunStop(l, i, IsDigit(l[i])); i < e <= k && RunStop(r, i, IsDigit(r[i])) == e && l[i..e] == r[i..e]
  {
    SharedAt(l, r, k, i);
    var digits := IsDigit(l[i]);
    var e, e' := RunStop(l, i, digits), RunStop(r, i, digits);
    assert i < e && i < e';
    StopsInside(l, k, i, e, digits);
    StopsInside(r, k, i, e', digits);
    if e < e' {
      SharedAt(l, r, k, e);
    } else if e' < e {
      SharedAt(l, r, k, e');
    }
    assert l[i..e] == l[..k][i..e] && r[i..e] == r[..k][i..e];
  }

  lemma StopsInside(s: Text, k: nat, i: nat, e: nat, digits: bool)
    requires Boundary(s, k) && i < k && IsRun(s, i, e, digits)
    ensures e <= k
  {
    assert IsDigit(s[i]) == digits || e == i;
  }

  lemma SameRun(l: Text, r: Text, i: nat, e: nat, d: Text)
    requires i < e <= |l| && e <= |r| && l[i..e] == d == r[i..e]
    ensures CompareDigitMagnitude(l[i..e], r[i..e]) == 0 && Folded(l[i..e]) == Folded(r[i..e])
  {
    LexZero(Significant(d), Significant(d));
  }

  /** A common beginning that ends between two runs does not decide. */
  lemma {:induction false} SharedRunsSkip(l: Text, r: Text, k: nat, i: nat)
    requires SharesRuns(l, r, k) && i <= k
    ensures Lex(RunKey(l, i), RunKey(r, i)) == Lex(RunKey(l, k), RunKey(r, k))
    ensures Lex(TieKey(l, i), TieKey(r, i)) == Lex(TieKey(l, k), TieKey(r, k))
    decreases k - i
  {
    if i < k {
      SharedAt(l, r, k, i);
      SharedRun(l, r, k, i);
      var e := RunStop(l, i, IsDigit(l[i]));
      SameRun(l, r, i, e, l[i..e]);
      if IsDigit(l[i]) {
        DigitRuns(l, i, e, r, i, e);
      } else {
        TextRuns(l, i, e, r, i, e);
      }
      SharedRunsSkip(l, r, k, e);
    }
  }

  /** The kinds of the first characters agree, or one text is empty, or both start in a common beginning. */
  lemma DecidedAfter(l: Text, r: Text, k: nat)
    requires SharesRuns(l, r, k) && (k > 0 || (l != [] && r != [] && IsDigit(l[0]) == IsDigit(r[0])))
    ensures Lex(Key(l), Key(r)) == Lex(RunKey(l, k), RunKey(r, k))
    ensures Lex(TieKey(l, 0), TieKey(r, 0)) == Lex(TieKey(l, k), TieKey(r, k))
  {
    if k > 0 {
      SharedAt(l, r, k, 0);
    }
    KeyOfStart(l, r);
    SharedRunsSkip(l, r, k, 0);
  }

  // ---- numbers ---------------------------------------------------------------------------------------------

  /** The text after a run of this kind does not continue it. */
  predicate Stops(s: Text, digits: bool) {
    s != [] ==> IsDigit(s[0]) != digits
  }

  lemma RunIs(p: Text, run: Text, s: Text, digits: bool)
    requires run != [] && (forall i | 0 <= i < |run| :: IsDigit(run[i]) == digits) && Stops(s, digits)
    ensures var t := p + run + s;
            IsRun(t, |p|, |p| + |run|, digits) && t[|p|..|p| + |run|] == run && IsDigit(t[|p|]) == digits
  {
    var t := p + run + s;
    assert forall k | |p| <= k < |p| + |run| :: t[k] == run[k - |p|];
  }

  lemma BoundaryIs(p: Text, run: Text, s: Text, digits: bool)
    requires run != [] && IsDigit(run[0]) == digits && (p != [] ==> IsDigit(p[|p| - 1]) != digits)
    ensures Boundary(p + run + s, |p|) && (p + run + s)[..|p|] == p
  {
    var t := p + run + s;
    assert t[|p|] == run[0];
    assert p != [] ==> t[|p| - 1] == p[|p| - 1];
  }

  /** Behind equal beginnings, the smaller number comes first, whatever follows the numbers. */
  lemma SmallerNumberFirst(p: Text, a: Text, s: Text, b: Text, t: Text)
    requires p != [] ==> !IsDigit(p[|p| - 1])
    requires a != [] && b != [] && AllDigits(a) && AllDigits(b) && Stops(s, true) && Stops(t, true)
    requires Value(a) < Value(b)
    ensures ValueOrder(p + a + s, p + b + t) == -1
  {
    var l, r := p + a + s, p + b + t;
    RunIs(p, a, s, true);
    RunIs(p, b, t, true);
    BoundaryIs(p, a, s, true);
    BoundaryIs(p, b, t, true);
    DecidedByRuns(l, |p|, |p| + |a|, r, |p| + |b|, a, b);
    MagnitudeIsNumeric(a, b);
  }

  lemma DecidedByRuns(l: Text, k: nat, le: nat, r: Text, re: nat, a: Text, b: Text)
    requires SharesRuns(l, r, k) && k < |l| && k < |r| && IsDigit(l[k]) && IsDigit(r[k])
    requires IsRun(l, k, le, true) && IsRun(r, k, re, true) && l[k..le] == a && r[k..re] == b
    ensures CompareDigitMagnitude(a, b) != 0 ==> Lex(Key(l), Key(r)) == Sign(CompareDigitMagnitude(a, b))
  {
    DecidedAfter(l, r, k);
    DigitRuns(l, k, le, r, k, re);
  }

  // ---- texts -----------------------------------------------------------------------------------------------

  predicate NoDigits(s: Text) {
    forall i | 0 <= i < |s| :: !IsDigit(s[i])
  }

  /** Texts without digits sort by their folded characters. */
  lemma TextsSortFolded(l: Text, r: Text)
    requires NoDigits(l) && NoDigits(r) && Folded(l) != Folded(r)
    ensures ValueOrder(l, r) == Lex(Folded(l), Folded(r)) != 0
  {
    LexZero(Folded(l), Folded(r));
    if l != [] && r != [] {
      KeyOfStart(l, r);
      TextRuns(l, 0, |l|, r, 0, |r|);
      assert l[0..|l|] == l && r[0..|r|] == r;
    } else {
      EmptyFirst(if l == [] then r else l);
    }
  }

  lemma EmptyFirst(s: Text)
    requires s != []
    ensures Lex(Key([]), Key(s)) == -1 && Lex(Key(s), Key([])) == 1
    ensures Lex(Folded([]), Folded(s)) == -1 && Lex(Folded(s), Folded([])) == 1
  {
    assert RunKey(s, 0) != [];
  }

  // ---- continued values ---------------------------------------------------------------------------------------

  /** Where the last run of a text starts. */
  function LastRun(s: Text): (k: nat)
    requires s != []
    ensures k < |s| && Boundary(s, k) && IsRun(s, k, |s|, IsDigit(s[k]))
  {
    LastRunFrom(s, |s| - 1)
  }

  function LastRunFrom(s: Text, i: nat): (k: nat)
    requires i < |s| && IsRun(s, i, |s|, IsDigit(s[i]))
    ensures k <= i && Boundary(s, k) && IsRun(s, k, |s|, IsDigit(s[k]))
  {
    if i > 0 && IsDigit(s[i - 1]) == IsDigit(s[i]) then LastRunFrom(s, i - 1) else i
  }

  lemma {:induction false} ValueGrows(a: Text, b: Text)
    requires AllDigits(a) && AllDigits(b) && a <= b
    ensures Value(a) <= Value(b)
    decreases |b|
  {
    if |a| < |b| {
      var front := b[..|b| - 1];
      assert a <= front;
      ValueGrows(a, front);
      ValueBounds(front);
    } else {
      assert a == b;
    }
  }

  lemma {:induction false} PrefixIsLess(x: seq<int>, y: seq<int>)
    requires x < y
    ensures Lex(x, y) == -1
  {
    if x != [] {
      PrefixIsLess(x[1..], y[1..]);
    }
  }

  /** A value sorts before every value that continues it. */
  lemma ContinuedComesLater(l: Text, r: Text)
    requires l < r
    ensures ValueOrder(l, r) == -1
  {
    if l == [] {
      EmptyFirst(r);
    } else {
      var k := LastRun(l);
      assert l[..k] == r[..k] && forall i | 0 <= i < |l| :: l[i] == r[i];
      var re := RunStop(r, k, IsDigit(r[k]));
      assert re >= |l|;
      DecidedAfter(l, r, k);
      if IsDigit(l[k]) {
        ContinuedDigits(l, r, k, re);
      } else {
        ContinuedText(l, r, k, re);
      }
    }
  }

  /** The last run of a text, and the run that continues it. */
  lemma ContinuedRun(l: Text, r: Text, k: nat, re: nat)
    requires l < r && k < |l| <= re <= |r|
    ensures l[k..] <= r[k..re] && (re == |l| <==> l[k..] == r[k..re])
  {
    assert forall i | 0 <= i < |l| - k :: l[k..][i] == r[k..re][i];
  }

  lemma FoldedPrefix(x: Text, y: Text)
    requires x < y
    ensures Lex(Folded(x), Folded(y)) == -1 && Folded(x) != Folded(y)
  {
    PrefixIsLess(Folded(x), Folded(y));
  }

  lemma MoreToCome(s: Text, k: nat)
    requires k < |s|
    ensures Lex([], RunKey(s, k)) == -1
  {
    assert RunKey(s, k) != [];
  }

  lemma ContinuedText(l: Text, r: Text, k: nat, re: nat)
    requires l < r && k < |l| <= re && !IsDigit(l[k]) && IsRun(l, k, |l|, false) && IsRun(r, k, re, false)
    ensures Lex(RunKey(l, k), RunKey(r, k)) == -1
  {
    ContinuedRun(l, r, k, re);
    assert l[k..|l|] == l[k..];
    TextRuns(l, k, |l|, r, k, re);
    if re == |l| {
      MoreToCome(r, re);
    } else {
      FoldedPrefix(l[k..], r[k..re]);
    }
  }

  lemma ContinuedMagnitude(x: Text, y: Text)
    requires AllDigits(x) && AllDigits(y) && x <= y
    ensures CompareDigitMagnitude(x, y) <= 0
  {
    ValueGrows(x, y);
    MagnitudeIsNumeric(x, y);
  }

  lemma ContinuedDigits(l: Text, r: Text, k: nat, re: nat)
    requires l < r && k < |l| <= re && IsDigit(l[k]) && IsRun(l, k, |l|, true) && IsRun(r, k, re, true)
    ensures Lex(RunKey(l, k), RunKey(r, k)) <= 0
    ensures Lex(RunKey(l, k), RunKey(r, k)) == 0 ==> Lex(TieKey(l, k), TieKey(r, k)) == -1
  {
    ContinuedRun(l, r, k, re);
    assert l[k..|l|] == l[k..];
    ContinuedMagnitude(l[k..], r[k..re]);
    DigitRuns(l, k, |l|, r, k, re);
    if re < |r| {
      MoreToCome(r, re);
    }
  }

  // ---- names with namespaces ------------------------------------------------------------------------------------

  predicate NoColon(s: Text) {
    forall i | 0 <= i < |s| :: s[i] != 58
  }

  /** The part of a name in front of its value: nothing, or a namespace and a colon. */
  predicate IsNamespace(space: Text, value: Text) {
    if space == [] then NoColon(value) else space[|space| - 1] == 58 && NoColon(space[..|space| - 1])
  }

  lemma ColonAt(s: Text, k: nat)
    requires k < |s| && s[k] == 58 && NoColon(s[..k])
    ensures IndexOfColon(s) == k
  {
    assert forall i | 0 <= i < k :: s[i] == s[..k][i];
  }

  lemma ValueOfName(space: Text, value: Text)
    requires IsNamespace(space, value)
    ensures ValuePart(space + value) == value
  {
    var name := space + value;
    if space == [] {
      assert name == value;
    } else {
      var k := |space| - 1;
      assert name[k] == space[k] && name[..k] == space[..k];
      ColonAt(name, k);
      assert name[k + 1..] == value;
    }
  }

  /** The values decide; the whole names only between values of the same rank. */
  lemma ValuesDecide(m: Text, l: Text, n: Text, r: Text)
    requires IsNamespace(m, l) && IsNamespace(n, r)
    ensures NameOrder(m + l, n + r) == if ValueOrder(l, r) != 0 then ValueOrder(l, r) else Lex(m + l, n + r)
  {
    ValueOfName(m, l);
    ValueOfName(n, r);
  }

  /** `n2` sorts before `n10`: names that differ first in a number sort by it, in any namespaces. */
  lemma NamesSortByNumber(m: Text, n: Text, p: Text, a: Text, s: Text, b: Text, t: Text)
    requires IsNamespace(m, p + a + s) && IsNamespace(n, p + b + t)
    requires p != [] ==> !IsDigit(p[|p| - 1])
    requires a != [] && b != [] && AllDigits(a) && AllDigits(b) && Stops(s, true) && Stops(t, true)
    requires Value(a) < Value(b)
    ensures NameOrder(m + (p + a + s), n + (p + b + t)) == -1
  {
    SmallerNumberFirst(p, a, s, b, t);
    ValuesDecide(m, p + a + s, n, p + b + t);
  }

  /** Names whose values have no digits sort by the folded values, in any namespaces. */
  lemma NamesSortByText(m: Text, l: Text, n: Text, r: Text)
    requires IsNamespace(m, l) && IsNamespace(n, r) && NoDigits(l) && NoDigits(r) && Folded(l) != Folded(r)
    ensures NameOrder(m + l, n + r) == Lex(Folded(l), Folded(r)) != 0
  {
    TextsSortFolded(l, r);
    ValuesDecide(m, l, n, r);
  }

  /** A name sorts before every name whose value continues its value, in any namespaces. */
  lemma NamesSortByLength(m: Text, l: Text, n: Text, r: Text)
    requires IsNamespace(m, l) && IsNamespace(n, r) && l < r
    ensures NameOrder(m + l, n + r) == -1
  {
    ContinuedComesLater(l, r);
    ValuesDecide(m, l, n, r);
  }
}
