/**
 The natural order of tag names, frontend/src/tagOrder.ts. A name is a sequence of UTF-16 code units.
 The comparator walks two names run by run and defers its numeric tie-break. It is proved against
 an order on keys: a key is one integer sequence per name, and keys are compared lexicographically.
 */
module NaturalOrder {
  import Decimals

  type Code = c: int | 0 <= c < 65536

  type Text = seq<Code>

  // ---- lexicographic order ---------------------------------------------------------------------------

  function Sign(x: int): int {
    if x < 0 then -1 else if x > 0 then 1 else 0
  }

  /** Lexicographic comparison, a proper prefix first. It is also the built-in order of strings. */
  function Lex(a: seq<int>, b: seq<int>): (r: int)
    ensures -1 <= r <= 1
  {
    if a == [] && b == [] then 0
    else if a == [] then -1
    else if b == [] then 1
    else if a[0] != b[0] then Sign(a[0] - b[0])
    else Lex(a[1..], b[1..])
  }

  lemma {:induction false} LexReversed(a: seq<int>, b: seq<int>)
    ensures Lex(b, a) == -Lex(a, b)
  {
    if a != [] && b != [] && a[0] == b[0] {
      LexReversed(a[1..], b[1..]);
    }
  }

  lemma {:induction false} LexZero(a: seq<int>, b: seq<int>)
    ensures Lex(a, b) == 0 <==> a == b
  {
    if a != [] && b != [] && a[0] == b[0] {
      LexZero(a[1..], b[1..]);
      assert a == [a[0]] + a[1..] && b == [b[0]] + b[1..];
    }
  }

  lemma {:induction false} LexTransitive(a: seq<int>, b: seq<int>, c: seq<int>)
    requires Lex(a, b) <= 0 && Lex(b, c) <= 0
    ensures Lex(a, c) <= 0
    ensures Lex(a, b) < 0 || Lex(b, c) < 0 ==> Lex(a, c) < 0
  {
    if a != [] && b != [] && c != [] && a[0] == b[0] == c[0] {
      LexTransitive(a[1..], b[1..], c[1..]);
    }
  }

  /** Blocks of equal length are compared before what follows them. */
  lemma {:induction false} LexBlocks(x: seq<int>, a: seq<int>, y: seq<int>, b: seq<int>)
    requires |x| == |y|
    ensures Lex(x + a, y + b) == if x == y then Lex(a, b) else Lex(x, y)
    ensures x != y ==> Lex(x, y) != 0
  {
    if x == [] {
      assert x + a == a && y + b == b;
    } else {
      LexBlocks(x[1..], a, y[1..], b);
      assert (x + a)[1..] == x[1..] + a && (y + b)[1..] == y[1..] + b;
      assert x == [x[0]] + x[1..] && y == [y[0]] + y[1..];
    }
  }

  /** Blocks of positive numbers that end with a zero are compared before what follows them. */
  lemma {:induction false} LexTerminated(x: seq<int>, a: seq<int>, y: seq<int>, b: seq<int>)
    requires (forall i | 0 <= i < |x| :: x[i] > 0) && (forall i | 0 <= i < |y| :: y[i] > 0)
    ensures Lex(x + [0] + a, y + [0] + b) == if x == y then Lex(a, b) else Lex(x, y)
    ensures x != y ==> Lex(x, y) != 0
  {
    var p, q := x + [0] + a, y + [0] + b;
    if x != [] && y != [] {
      LexTerminated(x[1..], a, y[1..], b);
      assert p[1..] == x[1..] + [0] + a && q[1..] == y[1..] + [0] + b;
      assert x == [x[0]] + x[1..] && y == [y[0]] + y[1..];
    } else {
      assert x == [] ==> p[1..] == a;
      assert y == [] ==> q[1..] == b;
    }
  }

  // ---- runs and keys ---------------------------------------------------------------------------------

  predicate IsDigit(c: Code) {
    48 <= c <= 57
  }

  function LowerCode(c: Code): Code {
    if 65 <= c <= 90 then c + 32 else c
  }

  ghost predicate IsRun(s: Text, i: nat, end: nat, digits: bool) {
    && i <= end <= |s|
    && (forall k | i <= k < end :: IsDigit(s[k]) == digits)
    && (end < |s| ==> IsDigit(s[end]) != digits)
  }

  /** Where the run of digits, or of other characters, that starts at `i` ends. */
  method RunEnd(s: Text, i: nat, digits: bool) returns (end: nat)
    requires i <= |s|
    ensures IsRun(s, i, end, digits)
  {
    end := i;
    while end < |s| && IsDigit(s[end]) == digits
      invariant i <= end <= |s| && forall k | i <= k < end :: IsDigit(s[k]) == digits
    {
      end := end + 1;
    }
  }

  function RunStop(s: Text, i: nat, digits: bool): (end: nat)
    requires i <= |s|
    ensures IsRun(s, i, end, digits)
    decreases |s| - i
  {
    if i < |s| && IsDigit(s[i]) == digits then RunStop(s, i + 1, digits) else i
  }

  lemma RunIsUnique(s: Text, i: nat, a: nat, b: nat, digits: bool)
    requires IsRun(s, i, a, digits) && IsRun(s, i, b, digits)
    ensures a == b
  {
  }

  predicate AllDigits(s: Text) {
    forall i | 0 <= i < |s| :: IsDigit(s[i])
  }

  function StripZeros(s: Text): Text {
    if s != [] && s[0] == 48 then StripZeros(s[1..]) else s
  }

  function Significant(run: Text): Text {
    if StripZeros(run) == [] then [48] else StripZeros(run)
  }

  function Folded(s: Text): (r: seq<int>)
    ensures forall i | 0 <= i < |r| :: r[i] > 0
  {
    seq(|s|, i requires 0 <= i < |s| => LowerCode(s[i]) + 1)
  }

  /** The key of the runs from `i` on: a digit run gives its magnitude, a text run its folded codes and a zero. */
  function RunKey(s: Text, i: nat): seq<int>
    requires i <= |s|
    decreases |s| - i
  {
    if i == |s| then []
    else if IsDigit(s[i]) then
      var end := RunStop(s, i, true);
      var sig := Significant(s[i..end]);
      [|sig|] + (sig + RunKey(s, end))
    else
      var end := RunStop(s, i, false);
      Folded(s[i..end]) + [0] + RunKey(s, end)
  }

  /** A name that starts with a digit sorts among the texts where the digits' codes are. */
  function Key(s: Text): seq<int> {
    if s != [] && IsDigit(s[0]) then [48 + 1] + RunKey(s, 0) else RunKey(s, 0)
  }

  /** The written lengths of the digit runs from `i` on. */
  function TieKey(s: Text, i: nat): seq<int>
    requires i <= |s|
    decreases |s| - i
  {
    if i == |s| then []
    else if IsDigit(s[i]) then [RunStop(s, i, true) - i] + TieKey(s, RunStop(s, i, true))
    else TieKey(s, RunStop(s, i, false))
  }

  function ValueOrder(l: Text, r: Text): int {
    var primary := Lex(Key(l), Key(r));
    if primary != 0 then primary else Lex(TieKey(l, 0), TieKey(r, 0))
  }

  // ---- the comparator --------------------------------------------------------------------------------

  function CompareDigitMagnitude(l: Text, r: Text): int {
    var ls, rs := Significant(l), Significant(r);
    if |ls| != |rs| then |ls| - |rs| else Lex(ls, rs)
  }

  method CompareAsciiCaseInsensitive(l: Text, r: Text) returns (c: int)
    ensures Sign(c) == Lex(Folded(l), Folded(r))
    ensures c == 0 <==> Folded(l) == Folded(r)
  {
    var length := if |l| < |r| then |l| else |r|;
    var i := 0;
    assert Folded(l)[0..] == Folded(l) && Folded(r)[0..] == Folded(r);
    while i < length
      invariant 0 <= i <= length && Folded(l)[..i] == Folded(r)[..i]
      invariant Lex(Folded(l), Folded(r)) == Lex(Folded(l)[i..], Folded(r)[i..])
    {
      c := LowerCode(l[i]) - LowerCode(r[i]);
      if c != 0 {
        assert Folded(l)[i] != Folded(r)[i];
        return;
      }
      assert Folded(l)[i..][1..] == Folded(l)[i + 1..] && Folded(r)[i..][1..] == Folded(r)[i + 1..];
      i := i + 1;
    }
    c := |l| - |r|;
    assert c == 0 ==> Folded(l) == Folded(l)[..i] && Folded(r) == Folded(r)[..i];
  }

  /** Both names stand at the start of runs, of one kind except perhaps at the very start. What is left
      decides the primary order, and the tie-break found so far, or else what is left, decides ties. */
  ghost predicate OnCourse(l: Text, li: nat, r: Text, ri: nat, tie: int) {
    && li <= |l| && ri <= |r|
    && (!(li == ri == 0) ==>
          && (li < |l| && ri < |r| ==> IsDigit(l[li]) == IsDigit(r[ri]))
          && Lex(Key(l), Key(r)) == Lex(RunKey(l, li), RunKey(r, ri)))
    && Lex(TieKey(l, 0), TieKey(r, 0)) == if tie != 0 then Sign(tie) else Lex(TieKey(l, li), TieKey(r, ri))
  }

  lemma KeyOfStart(l: Text, r: Text)
    requires l != [] && r != [] && IsDigit(l[0]) == IsDigit(r[0])
    ensures Lex(Key(l), Key(r)) == Lex(RunKey(l, 0), RunKey(r, 0))
  {
    LexBlocks([48 + 1], RunKey(l, 0), [48 + 1], RunKey(r, 0));
  }

  /** A digit against another character at the start decides by the characters' codes. */
  lemma MixedStart(l: Text, r: Text)
    requires l != [] && r != [] && IsDigit(l[0]) != IsDigit(r[0])
    ensures Lex(Key(l), Key(r)) == Sign(LowerCode(l[0]) - LowerCode(r[0])) != 0
  {
    assert !IsDigit(l[0]) ==> Key(l)[0] == LowerCode(l[0]) + 1;
    assert !IsDigit(r[0]) ==> Key(r)[0] == LowerCode(r[0]) + 1;
  }

  /** Two digit runs: their magnitudes decide, or the rest does and the lengths are the next tie-break. */
  lemma DigitRuns(l: Text, li: nat, le: nat, r: Text, ri: nat, re: nat)
    requires li < |l| && ri < |r| && IsDigit(l[li]) && IsDigit(r[ri])
    requires IsRun(l, li, le, true) && IsRun(r, ri, re, true)
    ensures var compared := CompareDigitMagnitude(l[li..le], r[ri..re]);
            Lex(RunKey(l, li), RunKey(r, ri)) == if compared != 0 then Sign(compared) else Lex(RunKey(l, le), RunKey(r, re))
    ensures Lex(TieKey(l, li), TieKey(r, ri)) ==
            if le - li != re - ri then Sign((le - li) - (re - ri)) else Lex(TieKey(l, le), TieKey(r, re))
  {
    RunIsUnique(l, li, le, RunStop(l, li, true), true);
    RunIsUnique(r, ri, re, RunStop(r, ri, true), true);
    var x, y := Significant(l[li..le]), Significant(r[ri..re]);
    LexBlocks([|x|], x + RunKey(l, le), [|y|], y + RunKey(r, re));
    if |x| == |y| {
      LexBlocks(x, RunKey(l, le), y, RunKey(r, re));
      LexZero(x, y);
    }
    LexBlocks([le - li], TieKey(l, le), [re - ri], TieKey(r, re));
  }

  lemma TextRuns(l: Text, li: nat, le: nat, r: Text, ri: nat, re: nat)
    requires li < |l| && ri < |r| && !IsDigit(l[li]) && !IsDigit(r[ri])
    requires IsRun(l, li, le, false) && IsRun(r, ri, re, false)
    ensures var x, y := Folded(l[li..le]), Folded(r[ri..re]);
            Lex(RunKey(l, li), RunKey(r, ri)) == if x == y then Lex(RunKey(l, le), RunKey(r, re)) else Lex(x, y)
    ensures TieKey(l, li) == TieKey(l, le) && TieKey(r, ri) == TieKey(r, re)
  {
    RunIsUnique(l, li, le, RunStop(l, li, false), false);
    RunIsUnique(r, ri, re, RunStop(r, ri, false), false);
    LexTerminated(Folded(l[li..le]), RunKey(l, le), Folded(r[ri..re]), RunKey(r, re));
  }

  /** Runs of equal magnitude and equal length are equal, so only their lengths can break the tie. */
  lemma {:induction false} EqualMagnitude(l: Text, r: Text)
    requires AllDigits(l) && AllDigits(r) && |l| == |r| && CompareDigitMagnitude(l, r) == 0
    ensures l == r
  {
    LexZero(Significant(l), Significant(r));
    Padded(l);
    Padded(r);
  }

  /** A digit run is its significant digits behind zeros, unless it is all zeros. */
  lemma {:induction false} Padded(s: Text)
    ensures |StripZeros(s)| <= |s|
    ensures s == seq(|s| - |StripZeros(s)|, i => 48) + StripZeros(s)
    ensures StripZeros(s) != [] ==> StripZeros(s)[0] != 48
  {
    if s != [] && s[0] == 48 {
      Padded(s[1..]);
      assert s == [s[0]] + s[1..];
    }
  }

  function NextTie(tie: int, l: Text, r: Text): int {
    if tie != 0 then tie else if |l| != |r| then |l| - |r| else Lex(l, r)
  }

  lemma PrimaryOf(l: Text, li: nat, r: Text, ri: nat, tie: int)
    requires OnCourse(l, li, r, ri, tie) && li < |l| && ri < |r| && IsDigit(l[li]) == IsDigit(r[ri])
    ensures Lex(Key(l), Key(r)) == Lex(RunKey(l, li), RunKey(r, ri))
  {
    if li == ri == 0 {
      KeyOfStart(l, r);
    }
  }

  /** For runs of equal magnitude, a difference in length is the only tie-break. */
  lemma TieOfRuns(l: Text, r: Text)
    requires AllDigits(l) && AllDigits(r) && CompareDigitMagnitude(l, r) == 0
    ensures NextTie(0, l, r) == |l| - |r|
  {
    if |l| == |r| {
      EqualMagnitude(l, r);
      LexZero(l, r);
    }
  }

  lemma DigitTie(l: Text, li: nat, le: nat, r: Text, ri: nat, re: nat, tie: int, next: int)
    requires li < |l| && ri < |r| && IsDigit(l[li]) && IsDigit(r[ri])
    requires IsRun(l, li, le, true) && IsRun(r, ri, re, true)
    requires CompareDigitMagnitude(l[li..le], r[ri..re]) == 0 && next == NextTie(tie, l[li..le], r[ri..re])
    ensures (if next != 0 then Sign(next) else Lex(TieKey(l, le), TieKey(r, re))) ==
            if tie != 0 then Sign(tie) else Lex(TieKey(l, li), TieKey(r, ri))
  {
    DigitRuns(l, li, le, r, ri, re);
    TieOfRuns(l[li..le], r[ri..re]);
  }

  lemma DigitStep(l: Text, li: nat, le: nat, r: Text, ri: nat, re: nat, tie: int, compared: int, next: int)
    requires OnCourse(l, li, r, ri, tie) && li < |l| && ri < |r| && IsDigit(l[li]) && IsDigit(r[ri])
    requires IsRun(l, li, le, true) && IsRun(r, ri, re, true)
    requires compared == CompareDigitMagnitude(l[li..le], r[ri..re]) && next == NextTie(tie, l[li..le], r[ri..re])
    ensures if compared != 0 then Lex(Key(l), Key(r)) == Sign(compared) else OnCourse(l, le, r, re, next)
  {
    PrimaryOf(l, li, r, ri, tie);
    DigitRuns(l, li, le, r, ri, re);
    if compared == 0 {
      DigitTie(l, li, le, r, ri, re, tie, next);
    }
  }

  lemma TextStep(l: Text, li: nat, le: nat, r: Text, ri: nat, re: nat, tie: int)
    requires OnCourse(l, li, r, ri, tie) && li < |l| && ri < |r| && !IsDigit(l[li]) && !IsDigit(r[ri])
    requires IsRun(l, li, le, false) && IsRun(r, ri, re, false)
    ensures var x, y := Folded(l[li..le]), Folded(r[ri..re]);
            if x != y then Lex(Key(l), Key(r)) == Lex(x, y) != 0 else OnCourse(l, le, r, re, tie)
  {
    PrimaryOf(l, li, r, ri, tie);
    TextRuns(l, li, le, r, ri, re);
    LexZero(Folded(l[li..le]), Folded(r[ri..re]));
  }

  /** One name is through: the shorter comes first, and at a tie the deferred tie-break decides. */
  lemma AtEnd(l: Text, li: nat, r: Text, ri: nat, tie: int)
    requires OnCourse(l, li, r, ri, tie) && (li == |l| || ri == |r|)
    ensures ValueOrder(l, r) == if li < |l| then 1 else if ri < |r| then -1 else Sign(tie)
  {
    if li == ri == 0 {
      assert l == [] ==> Key(l) == [];
      assert r == [] ==> Key(r) == [];
    }
    assert li < |l| ==> RunKey(l, li) != [];
    assert ri < |r| ==> RunKey(r, ri) != [];
    assert Lex(Key(l), Key(r)) == if li < |l| then 1 else if ri < |r| then -1 else 0;
  }

  method CompareNaturalAscii(l: Text, r: Text) returns (c: int)
    ensures Sign(c) == ValueOrder(l, r)
  {
    var li, ri, tie := 0, 0, 0;
    while li < |l| && ri < |r|
      invariant OnCourse(l, li, r, ri, tie)
      decreases |l| - li
    {
      if IsDigit(l[li]) && IsDigit(r[ri]) {
        var le := RunEnd(l, li, true);
        var re := RunEnd(r, ri, true);
        c := CompareDigitMagnitude(l[li..le], r[ri..re]);
        var next := NextTie(tie, l[li..le], r[ri..re]);
        DigitStep(l, li, le, r, ri, re, tie, c, next);
        if c != 0 {
          return;
        }
        li, ri, tie := le, re, next;
      } else if IsDigit(l[li]) != IsDigit(r[ri]) {
        MixedStart(l, r);
        return LowerCode(l[li]) - LowerCode(r[ri]);
      } else {
        var le := RunEnd(l, li, false);
        var re := RunEnd(r, ri, false);
        TextStep(l, li, le, r, ri, re, tie);
        c := CompareAsciiCaseInsensitive(l[li..le], r[ri..re]);
        if c != 0 {
          return;
        }
        li, ri := le, re;
      }
    }
    AtEnd(l, li, r, ri, tie);
    if li == |l| && ri != |r| {
      return -1;
    }
    if ri == |r| && li != |l| {
      return 1;
    }
    return tie;
  }

  // ---- digit runs compare as numbers ------------------------------------------------------------------

  function Value(s: Text): int {
    if s == [] then 0 else Value(s[..|s| - 1]) * 10 + (s[|s| - 1] as int - 48)
  }

  lemma {:induction false} ValueBounds(s: Text)
    requires AllDigits(s)
    ensures 0 <= Value(s) < Decimals.Power(|s|)
    ensures s != [] && s[0] != 48 ==> Decimals.Power(|s| - 1) <= Value(s)
  {
    if s != [] {
      ValueBounds(s[..|s| - 1]);
    }
  }

  lemma {:induction false} ValueOfStripped(s: Text)
    requires AllDigits(s)
    ensures Value(StripZeros(s)) == Value(s) && AllDigits(StripZeros(s))
    decreases |s|
  {
    if s != [] && s[0] == 48 {
      ValueOfStripped(s[1..]);
      LeadingZero(s);
    }
  }

  lemma {:induction false} LeadingZero(s: Text)
    requires s != [] && s[0] == 48
    ensures Value(s[1..]) == Value(s)
  {
    if |s| > 1 {
      LeadingZero(s[..|s| - 1]);
      assert s[1..][..|s| - 2] == s[..|s| - 1][1..];
    }
  }

  lemma {:induction false} SameLengthValues(a: Text, b: Text)
    requires AllDigits(a) && AllDigits(b) && |a| == |b|
    ensures Lex(a, b) == Sign(Value(a) - Value(b))
  {
    if a != [] {
      var n := |a| - 1;
      SameLengthValues(a[..n], b[..n]);
      LexBlocks(a[..n], [a[n]], b[..n], [b[n]]);
      assert a == a[..n] + [a[n]] && b == b[..n] + [b[n]];
    }
  }

  /** The significant digits write the same number, with no zero in front unless it is all there is. */
  lemma SignificantValue(s: Text)
    requires AllDigits(s)
    ensures var a := Significant(s); AllDigits(a) && a != [] && Value(a) == Value(s) < Decimals.Power(|a|)
    ensures var a := Significant(s); |a| > 1 ==> Decimals.Power(|a| - 1) <= Value(a)
  {
    ValueOfStripped(s);
    Padded(s);
    ValueBounds(Significant(s));
    assert StripZeros(s) == [] ==> Value(s) == 0 && Value([48]) == Value([48][..0]) * 10;
  }

  lemma LongerIsGreater(a: Text, b: Text)
    requires a != [] && |a| < |b| && Value(a) < Decimals.Power(|a|) && Decimals.Power(|b| - 1) <= Value(b)
    ensures Value(a) < Value(b)
  {
    Decimals.PowerGrows(|a|, |b| - 1);
  }

  /** Digit runs of any length compare as the numbers they write. */
  lemma MagnitudeIsNumeric(l: Text, r: Text)
    requires AllDigits(l) && AllDigits(r)
    ensures Sign(CompareDigitMagnitude(l, r)) == Sign(Value(l) - Value(r))
  {
    var a, b := Significant(l), Significant(r);
    SignificantValue(l);
    SignificantValue(r);
    if |a| < |b| {
      LongerIsGreater(a, b);
    } else if |b| < |a| {
      LongerIsGreater(b, a);
    } else {
      SameLengthValues(a, b);
    }
  }

  // ---- the order of tag names -------------------------------------------------------------------------

  function IndexOfColon(s: Text): (i: int)
    ensures -1 <= i < |s|
    ensures i >= 0 ==> s[i] == 58 && forall k | 0 <= k < i :: s[k] != 58
    ensures i < 0 ==> forall k | 0 <= k < |s| :: s[k] != 58
  {
    if s == [] then -1
    else if s[0] == 58 then 0
    else
      var i := IndexOfColon(s[1..]);
      assert forall k | 0 < k < |s| :: s[k] == s[1..][k - 1];
      if i < 0 then -1 else i + 1
  }

  function ValuePart(name: Text): Text {
    var i := IndexOfColon(name);
    if i >= 0 then name[i + 1..] else name
  }

  /** Tag names by the keys of their values, then by the names themselves. */
  function NameOrder(l: Text, r: Text): int {
    var natural := ValueOrder(ValuePart(l), ValuePart(r));
    if natural != 0 then natural else Lex(l, r)
  }

  method CompareTagNamesNaturally(l: Text, r: Text) returns (c: int)
    ensures Sign(c) == NameOrder(l, r)
  {
    c := CompareNaturalAscii(ValuePart(l), ValuePart(r));
    if c == 0 {
      c := Lex(l, r);
    }
  }

  lemma OrderReversed(l: Text, r: Text)
    ensures NameOrder(r, l) == -NameOrder(l, r)
  {
    var a, b := ValuePart(l), ValuePart(r);
    LexReversed(Key(a), Key(b));
    LexReversed(TieKey(a, 0), TieKey(b, 0));
    LexReversed(l, r);
  }

  lemma OrderZero(l: Text, r: Text)
    ensures NameOrder(l, r) == 0 <==> l == r
  {
    var a, b := ValuePart(l), ValuePart(r);
    LexZero(Key(a), Key(b));
    LexZero(TieKey(a, 0), TieKey(b, 0));
    LexZero(l, r);
  }

  lemma ValueOrderTransitive(a: Text, b: Text, c: Text)
    requires ValueOrder(a, b) <= 0 && ValueOrder(b, c) <= 0
    ensures ValueOrder(a, c) <= 0
    ensures ValueOrder(a, b) < 0 || ValueOrder(b, c) < 0 ==> ValueOrder(a, c) < 0
  {
    LexTransitive(Key(a), Key(b), Key(c));
    LexZero(Key(a), Key(b));
    LexZero(Key(b), Key(c));
    LexZero(Key(a), Key(c));
    if Key(a) == Key(b) == Key(c) {
      LexTransitive(TieKey(a, 0), TieKey(b, 0), TieKey(c, 0));
    }
  }

  lemma OrderTransitive(a: Text, b: Text, c: Text)
    requires NameOrder(a, b) <= 0 && NameOrder(b, c) <= 0
    ensures NameOrder(a, c) <= 0
    ensures NameOrder(a, b) < 0 || NameOrder(b, c) < 0 ==> NameOrder(a, c) < 0
  {
    ValueOrderTransitive(ValuePart(a), ValuePart(b), ValuePart(c));
    if ValueOrder(ValuePart(a), ValuePart(b)) == 0 && ValueOrder(ValuePart(b), ValuePart(c)) == 0 {
      ValueOrderZero(ValuePart(a), ValuePart(b), ValuePart(c));
      LexTransitive(a, b, c);
    }
  }

  lemma ValueOrderZero(a: Text, b: Text, c: Text)
    requires ValueOrder(a, b) == 0 && ValueOrder(b, c) == 0
    ensures ValueOrder(a, c) == 0
  {
    LexZero(Key(a), Key(b));
    LexZero(Key(b), Key(c));
    LexZero(Key(a), Key(c));
    LexZero(TieKey(a, 0), TieKey(b, 0));
    LexZero(TieKey(b, 0), TieKey(c, 0));
    LexZero(TieKey(a, 0), TieKey(c, 0));
  }
}
