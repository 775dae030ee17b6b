/**
 Traffic quotas and port speeds, frontend/src/vpsRules.ts: a decimal number with a unit becomes an
 integer and a canonical text. Digit strings may have any length.
 */
module ScaledRules {
  import opened Options
  import opened Texts
  import opened Decimals

  const MAX_I64 := 9_223_372_036_854_775_807

  datatype Parts = Parts(whole: string, fraction: string, unit: string)

  datatype Parsed = Parsed(canonical: string, value: int)

  predicate IsLetter(c: char) {
    'A' <= c <= 'Z' || 'a' <= c <= 'z'
  }

  // ---- splitting the text -------------------------------------------------------------------------------

  predicate AllOf(s: string, kind: char -> bool) {
    forall i | 0 <= i < |s| :: kind(s[i])
  }

  /** Where the run of characters of a class that starts at `i` ends. */
  function Span(s: string, i: nat, kind: char -> bool): (end: nat)
    requires i <= |s|
    ensures i <= end <= |s| && (end < |s| ==> !kind(s[end]))
    ensures forall k | i <= k < end :: kind(s[k])
    decreases |s| - i
  {
    if i < |s| && kind(s[i]) then Span(s, i + 1, kind) else i
  }

  lemma SpanIs(s: string, i: nat, end: nat, kind: char -> bool)
    requires i <= end <= |s| && (forall k | i <= k < end :: kind(s[k])) && (end < |s| ==> !kind(s[end]))
    ensures Span(s, i, kind) == end
  {
  }

  /** Digits, then perhaps a point with digits, then spaces, then letters. */
  function ReadParts(t: string): (r: Option<Parts>)
    ensures r.Some? ==> AreParts(r.value)
  {
    var a := Span(t, 0, IsDigit);
    var point := a < |t| && t[a] == '.';
    var b := if point then a + 1 else a;
    var c := if point then Span(t, b, IsDigit) else b;
    assert point ==> AllDigits(t[b..c]);
    if a > 0 then ReadTail(t, a, b, c) else None
  }

  function ReadTail(t: string, a: nat, b: nat, c: nat): (r: Option<Parts>)
    requires 0 < a <= b <= c <= |t| && AllDigits(t[..a]) && AllDigits(t[b..c])
    ensures r.Some? ==> AreParts(r.value)
  {
    var d := Span(t, c, IsSpace);
    if AllOf(t[d..], IsLetter) then Some(Parts(t[..a], t[b..c], t[d..])) else None
  }

  predicate AreParts(p: Parts) {
    p.whole != "" && AllDigits(p.whole) && AllDigits(p.fraction) && AllOf(p.unit, IsLetter)
  }

  /** The text is written as the pattern demands, with these parts. */
  ghost predicate Written(t: string, p: Parts, point: bool, gap: string) {
    && AreParts(p) && AllOf(gap, IsSpace) && (!point ==> p.fraction == "")
    && t == p.whole + (if point then "." + p.fraction else "") + (gap + p.unit)
  }

  lemma Cut(t: string, a: nat, c: nat, d: nat)
    requires a <= c <= d <= |t|
    ensures t == t[..a] + t[a..c] + (t[c..d] + t[d..])
  {
  }

  lemma ReadIsSound(t: string)
    requires ReadParts(t).Some?
    ensures exists point, gap :: Written(t, ReadParts(t).value, point, gap)
  {
    var a := Span(t, 0, IsDigit);
    var point := a < |t| && t[a] == '.';
    var b := if point then a + 1 else a;
    var c := if point then Span(t, b, IsDigit) else b;
    TailWritten(t, a, point, b, c);
  }

  lemma TailWritten(t: string, a: nat, point: bool, b: nat, c: nat)
    requires 0 < a <= b <= c <= |t| && AllDigits(t[..a]) && AllDigits(t[b..c]) && ReadTail(t, a, b, c).Some?
    requires if point then b == a + 1 && t[a] == '.' else a == b == c
    ensures exists gap :: Written(t, ReadTail(t, a, b, c).value, point, gap)
  {
    var d := Span(t, c, IsSpace);
    assert !point ==> t[b..c] == "";
    PiecesWritten(t, a, point, c, d);
    assert Written(t, ReadTail(t, a, b, c).value, point, t[c..d]);
  }

  lemma PiecesWritten(t: string, a: nat, point: bool, c: nat, d: nat)
    requires 0 < a <= c <= d <= |t| && (if point then a < c && t[a] == '.' else a == c)
    requires AllDigits(t[..a]) && (point ==> AllDigits(t[a + 1..c])) && AllOf(t[c..d], IsSpace) && AllOf(t[d..], IsLetter)
    ensures Written(t, Parts(t[..a], if point then t[a + 1..c] else "", t[d..]), point, t[c..d])
  {
    Cut(t, a, c, d);
    assert point ==> t[a..c] == "." + t[a + 1..c];
  }

  /** A run of one kind, followed by something else, is what the scan finds. */
  lemma SpanOfPiece(t: string, i: nat, piece: string, rest: string, kind: char -> bool)
    requires i <= |t| && t[i..] == piece + rest && AllOf(piece, kind) && (rest != "" ==> !kind(rest[0]))
    ensures i + |piece| <= |t| && Span(t, i, kind) == i + |piece| && t[i..i + |piece|] == piece && t[i + |piece|..] == rest
  {
    var end := i + |piece|;
    assert forall k | i <= k < |t| :: t[k] == (piece + rest)[k - i];
    SpanIs(t, i, end, kind);
  }

  /** What follows the digits is no digit and no point. */
  lemma TailStarts(gap: string, unit: string)
    requires AllOf(gap, IsSpace) && AllOf(unit, IsLetter)
    ensures gap + unit != "" ==> !IsDigit((gap + unit)[0]) && (gap + unit)[0] != '.'
  {
    assert gap + unit != "" ==> (gap + unit)[0] == if gap != "" then gap[0] else unit[0];
  }

  /** Where the scan stops in the text, and what is left there. */
  ghost predicate Stops(t: string, whole: string, point: bool, fraction: string, tail: string) {
    var a := |whole|;
    var b := if point then a + 1 else a;
    var c := b + |fraction|;
    && c <= |t| && Span(t, 0, IsDigit) == a && t[..a] == whole
    && (point <==> a < |t| && t[a] == '.') && (point ==> Span(t, b, IsDigit) == c)
    && t[b..c] == fraction && t[c..] == tail
  }

  lemma ReadIsComplete(t: string, p: Parts, point: bool, gap: string)
    requires Written(t, p, point, gap)
    ensures ReadParts(t) == Some(p)
  {
    TailStarts(gap, p.unit);
    if point {
      PointedPieces(t, p.whole, p.fraction, gap + p.unit);
    } else {
      PlainPieces(t, p.whole, gap + p.unit);
    }
    StoppedReads(t, p, point, gap);
  }

  lemma StoppedReads(t: string, p: Parts, point: bool, gap: string)
    requires AreParts(p) && AllOf(gap, IsSpace) && (!point ==> p.fraction == "")
    requires Stops(t, p.whole, point, p.fraction, gap + p.unit)
    ensures ReadParts(t) == Some(p)
  {
    var a := |p.whole|;
    var b := if point then a + 1 else a;
    var c := b + |p.fraction|;
    assert ReadTail(t, a, b, c) == Some(p) by {
      TailReads(t, a, b, c, p, gap);
    }
    ReadsAsTail(t, a, point, b, c);
  }

  lemma ReadsAsTail(t: string, a: nat, point: bool, b: nat, c: nat)
    requires 0 < a <= b <= c <= |t| && Span(t, 0, IsDigit) == a && AllDigits(t[..a]) && AllDigits(t[b..c])
    requires (point <==> a < |t| && t[a] == '.') && b == (if point then a + 1 else a) && c == if point then Span(t, b, IsDigit) else b
    ensures ReadParts(t) == ReadTail(t, a, b, c)
  {
  }

  lemma TailReads(t: string, a: nat, b: nat, c: nat, p: Parts, gap: string)
    requires 0 < a <= b <= c <= |t| && AreParts(p) && AllOf(gap, IsSpace)
    requires t[..a] == p.whole && t[b..c] == p.fraction && t[c..] == gap + p.unit
    ensures ReadTail(t, a, b, c) == Some(p)
  {
    SpanOfPiece(t, c, gap, p.unit, IsSpace);
  }

  lemma PlainPieces(t: string, whole: string, tail: string)
    requires t == whole + "" + tail && AllDigits(whole) && (tail != "" ==> !IsDigit(tail[0]) && tail[0] != '.')
    ensures Stops(t, whole, false, "", tail)
  {
    var a := |whole|;
    assert t[0..] == whole + tail;
    SpanOfPiece(t, 0, whole, tail, IsDigit);
    assert a < |t| ==> t[a] == t[a..][0];
  }

  lemma PointedPieces(t: string, whole: string, fraction: string, tail: string)
    requires t == whole + ("." + fraction) + tail && AllDigits(whole) && AllDigits(fraction) && (tail != "" ==> !IsDigit(tail[0]))
    ensures Stops(t, whole, true, fraction, tail)
  {
    var a := |whole|;
    var rest := "." + fraction + tail;
    assert t[0..] == whole + rest;
    SpanOfPiece(t, 0, whole, rest, IsDigit);
    assert t[a + 1..] == t[a..][1..] == fraction + tail;
    SpanOfPiece(t, a + 1, fraction, tail, IsDigit);
    assert t[a] == t[a..][0] == '.';
  }

  // ---- the integer ----------------------------------------------------------------------------------------

  function ScaledDecimalInteger(whole: string, fraction: string, multiplier: nat, roundHalfUp: bool): int
    requires AllDigits(whole) && AllDigits(fraction)
  {
    ScaledInteger(Natural(whole + fraction), |fraction|, multiplier, roundHalfUp)
  }

  /** The digits with the point before the last `places` of them, times the multiplier. */
  function ScaledInteger(digits: nat, places: nat, multiplier: nat, roundHalfUp: bool): int {
    Rounded(digits * multiplier, Power(places), roundHalfUp)
  }

  function Rounded(scaled: nat, scale: int, halfUp: bool): int
    requires scale >= 1
  {
    var quotient, remainder := scaled / scale, scaled % scale;
    if halfUp && remainder * 2 >= scale then quotient + 1 else quotient
  }

  /** The fraction scaled/scale, rounded to the nearest integer with halves up, or rounded down. */
  ghost predicate IsRounding(v: int, scaled: int, scale: int, halfUp: bool) {
    if halfUp then v * (2 * scale) <= 2 * scaled + scale < (v + 1) * (2 * scale)
    else v * scale <= scaled < (v + 1) * scale
  }

  lemma RoundedIsRounding(scaled: nat, scale: int, halfUp: bool)
    requires scale >= 1
    ensures IsRounding(Rounded(scaled, scale, halfUp), scaled, scale, halfUp) && Rounded(scaled, scale, halfUp) >= 0
  {
    var q, r := scaled / scale, scaled % scale;
    NearestOf(scaled, scale, q, r);
    QuotientSign(scaled, scale);
  }

  lemma NearestOf(n: int, s: int, q: int, r: int)
    requires n == q * s + r && 0 <= r < s
    ensures IsRounding(q, n, s, false)
    ensures IsRounding(if r * 2 >= s then q + 1 else q, n, s, true)
  {
    Next(q, s);
    Next(q + 1, s);
    Twice(q, s);
    Twice(q + 1, s);
    Twice(q + 2, s);
  }

  lemma Next(q: int, s: int)
    ensures (q + 1) * s == q * s + s
  {
  }

  lemma Twice(q: int, s: int)
    ensures q * (2 * s) == 2 * (q * s)
  {
  }

  lemma QuotientSign(n: nat, s: int)
    requires s >= 1
    ensures n / s >= 0
  {
  }

  lemma RoundingIsUnique(v: int, v': int, scaled: int, scale: int, halfUp: bool)
    requires scale >= 1 && IsRounding(v, scaled, scale, halfUp) && IsRounding(v', scaled, scale, halfUp)
    ensures v == v'
  {
    if v < v' {
      Monotone(v + 1, v', if halfUp then 2 * scale else scale);
    } else if v' < v {
      Monotone(v' + 1, v, if halfUp then 2 * scale else scale);
    }
  }

  lemma DivisionIs(n: int, s: int, q: int, r: int)
    requires s >= 1 && n == q * s + r && 0 <= r < s
    ensures n / s == q && n % s == r
  {
    OneQuotient(s, q, r, n / s, n % s);
  }

  lemma OneQuotient(s: int, q: int, r: int, q': int, r': int)
    requires 0 <= r < s && 0 <= r' < s && q * s + r == q' * s + r'
    ensures q == q' && r == r'
  {
    if q < q' {
      Monotone(q + 1, q', s);
    } else if q' < q {
      Monotone(q' + 1, q, s);
    }
  }

  lemma Monotone(a: int, b: int, s: int)
    requires a <= b && s >= 0
    ensures a * s <= b * s
  {
  }

  /** A common factor of fraction and scale does not matter. */
  lemma RoundedCancels(n: nat, s: int, k: int, halfUp: bool)
    requires s >= 1 && k >= 1
    ensures s * k >= 1 && n * k >= 0 && Rounded(n * k, s * k, halfUp) == Rounded(n, s, halfUp)
  {
    var q, r := n / s, n % s;
    Expand(q, s, r, k, n);
    DivisionIs(n * k, s * k, q, r * k);
    Ordered(2 * r, s, k);
  }

  lemma Expand(q: int, s: int, r: int, k: int, n: int)
    requires n == q * s + r && 0 <= r < s && k >= 1
    ensures n * k == q * (s * k) + r * k && 0 <= r * k < s * k
  {
    assert (q * s) * k == q * (s * k);
  }

  lemma Ordered(a: int, b: int, k: int)
    requires k >= 1
    ensures a * k >= b * k <==> a >= b
  {
  }

  // ---- normalized digits ------------------------------------------------------------------------------------

  function StripLeading(whole: string): string {
    if |whole| > 1 && whole[0] == '0' then StripLeading(whole[1..]) else whole
  }

  function StripTrailing(fraction: string): string {
    if fraction != "" && fraction[|fraction| - 1] == '0' then StripTrailing(fraction[..|fraction| - 1]) else fraction
  }

  function NormalizeDecimalParts(whole: string, fraction: string): string {
    var f := StripTrailing(fraction);
    if f != "" then StripLeading(whole) + "." + f else StripLeading(whole)
  }

  lemma {:induction false} StripLeadingKeeps(s: string)
    requires s != "" && AllDigits(s)
    ensures var r := StripLeading(s); r != "" && AllDigits(r) && Natural(r) == Natural(s) && StripLeading(r) == r
  {
    if |s| > 1 && s[0] == '0' {
      StripLeadingKeeps(s[1..]);
      NaturalOfConcat(s[..1], s[1..]);
      assert s == s[..1] + s[1..];
      assert s[..1][..0] == "" && Natural(s[..1]) == 0;
    }
  }

  lemma {:induction false} StripTrailingKeeps(s: string)
    requires AllDigits(s)
    ensures var r := StripTrailing(s);
            AllDigits(r) && |r| <= |s| && Natural(s) == Natural(r) * Power(|s| - |r|) && StripTrailing(r) == r
  {
    if s != "" && s[|s| - 1] == '0' {
      var front := s[..|s| - 1];
      StripTrailingKeeps(front);
      var r := StripTrailing(front);
      TenMore(Natural(r), Power(|front| - |r|));
    }
  }

  lemma TenMore(a: int, p: int)
    ensures 10 * (a * p) == a * (10 * p)
  {
  }

  /** Normalizing takes one power of ten out of the digits and out of the scale. */
  lemma NormalizedDigits(whole: string, fraction: string)
    requires whole != "" && AllDigits(whole) && AllDigits(fraction)
    ensures var w, f := StripLeading(whole), StripTrailing(fraction);
            && AllDigits(w) && AllDigits(f) && |f| <= |fraction|
            && Natural(whole + fraction) == Natural(w + f) * Power(|fraction| - |f|)
            && Power(|fraction|) == Power(|f|) * Power(|fraction| - |f|)
  {
    var w, f := StripLeading(whole), StripTrailing(fraction);
    StripLeadingKeeps(whole);
    StripTrailingKeeps(fraction);
    NaturalOfConcat(whole, fraction);
    NaturalOfConcat(w, f);
    PowerAdds(|f|, |fraction| - |f|);
    Factored(Natural(w), Power(|f|), Natural(f), Power(|fraction| - |f|));
  }

  lemma Factored(w: int, p: int, f: int, k: int)
    ensures w * (p * k) + f * k == (w * p + f) * k
  {
    assert w * (p * k) == (w * p) * k;
  }

  /** Normalizing the digits does not change the integer. */
  lemma NormalizingKeepsValue(whole: string, fraction: string, multiplier: nat, halfUp: bool)
    requires whole != "" && AllDigits(whole) && AllDigits(fraction)
    ensures var w, f := StripLeading(whole), StripTrailing(fraction);
            AllDigits(w) && AllDigits(f) &&
            ScaledDecimalInteger(w, f, multiplier, halfUp) == ScaledDecimalInteger(whole, fraction, multiplier, halfUp)
  {
    var w, f := StripLeading(whole), StripTrailing(fraction);
    NormalizedDigits(whole, fraction);
    SameRounding(Natural(w + f), Power(|fraction| - |f|), multiplier, Power(|f|), halfUp, Natural(whole + fraction), Power(|fraction|));
  }

  lemma SameRounding(n: nat, k: int, m: nat, s: int, halfUp: bool, n': int, s': int)
    requires k >= 1 && s >= 1 && n' == n * k && s' == s * k
    ensures n' * m >= 0 && n * m >= 0 && s' >= 1 && Rounded(n' * m, s', halfUp) == Rounded(n * m, s, halfUp)
  {
    Commuted(n, k, m);
    RoundedCancels(n * m, s, k, halfUp);
  }

  lemma Commuted(n: int, k: int, m: int)
    ensures (n * k) * m == (n * m) * k
  {
  }

  // ---- quotas -----------------------------------------------------------------------------------------------

  function QuotaMultiplier(unit: string): Option<nat> {
    if unit == "" || unit == "b" then Some(1)
    else if unit == "kb" then Some(1_000)
    else if unit == "kib" then Some(1_024)
    else if unit == "mb" then Some(1_000_000)
    else if unit == "mib" then Some(1_048_576)
    else if unit == "gb" then Some(1_000_000_000)
    else if unit == "gib" then Some(1_073_741_824)
    else if unit == "tb" then Some(1_000_000_000_000)
    else if unit == "tib" then Some(1_099_511_627_776)
    else None
  }

  function UpperChar(c: char): char {
    if 'a' <= c <= 'z' then c - 'a' + 'A' else c
  }

  function QuotaUnit(unit: string): string {
    if unit == "" then ""
    else if unit == "b" then "B"
    else if |unit| >= 2 && unit[|unit| - 2..] == "ib" then [UpperChar(unit[0]), 'i', 'B']
    else [UpperChar(unit[0]), 'B']
  }

  predicate HasNonzero(digits: string) {
    exists i | 0 <= i < |digits| :: digits[i] != '0'
  }

  function QuotaOf(p: Parts): Option<Parsed>
    requires AreParts(p)
  {
    var unit := AsciiLower(p.unit);
    if !HasNonzero(p.whole + p.fraction) || QuotaMultiplier(unit).None? then None
    else
      var value := ScaledDecimalInteger(p.whole, p.fraction, QuotaMultiplier(unit).value, true);
      if value > MAX_I64 then None else Some(Parsed(NormalizeDecimalParts(p.whole, p.fraction) + QuotaUnit(unit), value))
  }

  function ParseTrafficQuota(input: string): Option<Parsed> {
    var parts := ReadParts(Trim(input));
    if parts.None? then None else QuotaOf(parts.value)
  }

  /** kilo, mega, giga, tera. */
  function Rank(prefix: char): nat {
    match prefix
    case 'k' => 1
    case 'm' => 2
    case 'g' => 3
    case 't' => 4
    case _ => 0
  }

  function RaisedTo(base: nat, n: nat): nat {
    if n == 0 then 1 else base * RaisedTo(base, n - 1)
  }

  lemma Powers()
    ensures RaisedTo(1000, 1) == 1_000 && RaisedTo(1000, 2) == 1_000_000
    ensures RaisedTo(1000, 3) == 1_000_000_000 && RaisedTo(1000, 4) == 1_000_000_000_000
    ensures RaisedTo(1024, 1) == 1_024 && RaisedTo(1024, 2) == 1_048_576
    ensures RaisedTo(1024, 3) == 1_073_741_824 && RaisedTo(1024, 4) == 1_099_511_627_776
  {
    assert RaisedTo(1000, 0) == 1 && RaisedTo(1024, 0) == 1;
    assert RaisedTo(1000, 1) == 1000 * 1 && RaisedTo(1024, 1) == 1024 * 1;
    assert RaisedTo(1000, 2) == 1000 * 1_000 && RaisedTo(1024, 2) == 1024 * 1_024;
    assert RaisedTo(1000, 3) == 1000 * 1_000_000 && RaisedTo(1024, 3) == 1024 * 1_048_576;
  }

  /** Canonical units have a capital prefix and a capital B; a binary multiple keeps its small i. */
  lemma QuotaUnitSpelling(unit: string)
    requires QuotaMultiplier(unit).Some?
    ensures var u := QuotaUnit(unit);
            && (unit == "" ==> u == "") && (unit != "" ==> u != "" && u[|u| - 1] == 'B')
            && (|unit| >= 2 ==> |u| == |unit| && u[0] in "KMGT" && Rank(unit[0]) == Rank(LowerChar(u[0])) > 0)
            && (|unit| == 3 ==> u[1] == 'i')
  {
    QuotaUnitShape(unit);
    QuotaUnitsArePowers(unit);
    assert |unit| >= 2 ==> unit[|unit| - 2..][0] == unit[|unit| - 2];
    assert |unit| == 3 ==> unit[1..] == "ib";
  }

  /** Bytes, decimal multiples `kb` to `tb`, binary multiples `kib` to `tib`, and no other unit. */
  lemma QuotaUnitsArePowers(unit: string)
    ensures QuotaMultiplier(unit) ==
            if unit == "" || unit == "b" then Some(1)
            else if |unit| == 2 && Rank(unit[0]) > 0 && unit[1] == 'b' then Some(RaisedTo(1000, Rank(unit[0])))
            else if |unit| == 3 && Rank(unit[0]) > 0 && unit[1] == 'i' && unit[2] == 'b' then Some(RaisedTo(1024, Rank(unit[0])))
            else None
  {
    Powers();
    if |unit| == 2 {
      assert unit == [unit[0], unit[1]];
    } else if |unit| == 3 {
      assert unit == [unit[0], unit[1], unit[2]];
    }
  }

  /** The canonical unit is a unit of letters that reads as the same unit. */
  lemma QuotaUnitStable(unit: string)
    requires QuotaMultiplier(unit).Some?
    ensures AllOf(QuotaUnit(unit), IsLetter) && AsciiLower(QuotaUnit(unit)) == unit
  {
    QuotaUnitShape(unit);
    var canonical := QuotaUnit(unit);
    assert |unit| >= 2 ==> unit[|unit| - 2..][0] == unit[|unit| - 2];
    assert |unit| == 3 ==> unit[1..] == "ib";
    assert forall i | 0 <= i < |unit| :: LowerChar(canonical[i]) == unit[i];
  }

  lemma QuotaUnitShape(unit: string)
    requires QuotaMultiplier(unit).Some?
    ensures unit == "" || unit == "b" || (|unit| >= 2 && 'a' <= unit[0] <= 'z')
    ensures |unit| <= 3 && (|unit| == 2 ==> unit[1] == 'b') && (|unit| == 3 ==> unit[1] == 'i' && unit[2] == 'b')
  {
  }

  lemma {:induction false} NonzeroIsPositive(digits: string)
    requires AllDigits(digits)
    ensures HasNonzero(digits) <==> Natural(digits) > 0
  {
    if digits != "" {
      var n := |digits| - 1;
      NonzeroIsPositive(digits[..n]);
      if HasNonzero(digits) {
        var i :| 0 <= i < |digits| && digits[i] != '0';
        assert i < n ==> digits[..n][i] != '0';
      }
      if i :| 0 <= i < n && digits[..n][i] != '0' {
        assert digits[i] != '0';
      }
    }
  }

  function Number(w: string, f: string): string {
    if f != "" then w + "." + f else w
  }

  lemma NumberEnds(w: string, f: string)
    requires w != "" && AllDigits(w) && AllDigits(f)
    ensures var n := Number(w, f); n != "" && IsDigit(n[0]) && IsDigit(n[|n| - 1])
  {
    var n := Number(w, f);
    assert n[0] == w[0];
    assert n[|n| - 1] == if f != "" then f[|f| - 1] else w[|w| - 1];
  }

  lemma TextEnds(n: string, gap: string, unit: string)
    requires n != "" && IsDigit(n[0]) && IsDigit(n[|n| - 1]) && AllOf(unit, IsLetter) && (unit == "" ==> gap == "")
    ensures Trim(n + (gap + unit)) == n + (gap + unit)
  {
    var t := n + (gap + unit);
    assert t[0] == n[0];
    assert t[|t| - 1] == if unit != "" then unit[|unit| - 1] else n[|n| - 1];
    TrimFixed(t);
  }

  /** A number without surplus zeros and a unit read back as their parts. */
  lemma NumberReads(w: string, f: string, gap: string, unit: string)
    requires AreParts(Parts(w, f, unit)) && AllOf(gap, IsSpace) && (unit == "" ==> gap == "")
    ensures ReadParts(Trim(Number(w, f) + (gap + unit))) == Some(Parts(w, f, unit))
  {
    var t := Number(w, f) + (gap + unit);
    NumberEnds(w, f);
    TextEnds(Number(w, f), gap, unit);
    assert f != "" ==> w + "." + f == w + ("." + f);
    assert f == "" ==> w + "" == w;
    ReadIsComplete(t, Parts(w, f, unit), f != "", gap);
  }

  /** Parts without surplus zeros, with a normalized unit. */
  function Normal(p: Parts, unit: string): Parts {
    Parts(StripLeading(p.whole), StripTrailing(p.fraction), unit)
  }

  lemma NormalReads(p: Parts, gap: string, unit: string)
    requires AreParts(p) && AllOf(gap, IsSpace) && AllOf(unit, IsLetter) && (unit == "" ==> gap == "")
    ensures AreParts(Normal(p, unit))
    ensures ReadParts(Trim(NormalizeDecimalParts(p.whole, p.fraction) + (gap + unit))) == Some(Normal(p, unit))
  {
    StripLeadingKeeps(p.whole);
    StripTrailingKeeps(p.fraction);
    NumberReads(StripLeading(p.whole), StripTrailing(p.fraction), gap, unit);
  }

  lemma NormalNumber(p: Parts, unit: string)
    requires AreParts(p)
    ensures var n := Normal(p, unit); NormalizeDecimalParts(n.whole, n.fraction) == NormalizeDecimalParts(p.whole, p.fraction)
  {
    StripLeadingKeeps(p.whole);
    StripTrailingKeeps(p.fraction);
  }

  lemma NormalNonzero(p: Parts, unit: string)
    requires AreParts(p)
    ensures HasNonzero(Normal(p, unit).whole + Normal(p, unit).fraction) <==> HasNonzero(p.whole + p.fraction)
  {
    var w, f := StripLeading(p.whole), StripTrailing(p.fraction);
    NormalizedDigits(p.whole, p.fraction);
    NonzeroIsPositive(p.whole + p.fraction);
    NonzeroIsPositive(w + f);
    PositiveFactor(Natural(w + f), Power(|p.fraction| - |f|));
  }

  lemma PositiveFactor(a: nat, k: int)
    requires k >= 1
    ensures a * k > 0 <==> a > 0
  {
  }

  /** What an accepted quota is: a pattern match with a known unit whose exact scaled value, rounded half up, fits. */
  ghost predicate IsQuota(t: string, p: Parts, point: bool, gap: string, value: int) {
    && Written(t, p, point, gap) && HasNonzero(p.whole + p.fraction) && QuotaMultiplier(AsciiLower(p.unit)).Some?
    && IsRounding(value, Natural(p.whole + p.fraction) * QuotaMultiplier(AsciiLower(p.unit)).value, Power(|p.fraction|), true)
    && 0 <= value <= MAX_I64
  }

  lemma ScaledIsRounding(digits: nat, places: nat, multiplier: nat, halfUp: bool)
    ensures IsRounding(ScaledInteger(digits, places, multiplier, halfUp), digits * multiplier, Power(places), halfUp)
    ensures ScaledInteger(digits, places, multiplier, halfUp) >= 0
  {
    RoundedIsRounding(digits * multiplier, Power(places), halfUp);
  }

  lemma OnlyScaled(digits: nat, places: nat, multiplier: nat, halfUp: bool, value: int)
    requires IsRounding(value, digits * multiplier, Power(places), halfUp)
    ensures ScaledInteger(digits, places, multiplier, halfUp) == value
  {
    ScaledIsRounding(digits, places, multiplier, halfUp);
    RoundingIsUnique(value, ScaledInteger(digits, places, multiplier, halfUp), digits * multiplier, Power(places), halfUp);
  }

  lemma QuotaIsExact(input: string)
    requires ParseTrafficQuota(input).Some?
    ensures exists p, point, gap :: IsQuota(Trim(input), p, point, gap, ParseTrafficQuota(input).value.value)
  {
    ReadIsSound(Trim(input));
    var p := ReadParts(Trim(input)).value;
    var point, gap :| Written(Trim(input), p, point, gap);
    ScaledIsRounding(Natural(p.whole + p.fraction), |p.fraction|, QuotaMultiplier(AsciiLower(p.unit)).value, true);
    assert IsQuota(Trim(input), p, point, gap, ParseTrafficQuota(input).value.value);
  }

  /** Everything that is a quota is accepted, with its value. */
  lemma QuotaIsAccepted(input: string, p: Parts, point: bool, gap: string, value: int)
    requires IsQuota(Trim(input), p, point, gap, value)
    ensures ParseTrafficQuota(input).Some? && ParseTrafficQuota(input).value.value == value
  {
    ReadIsComplete(Trim(input), p, point, gap);
    QuotaOfParts(p, value);
  }

  lemma QuotaOfParts(p: Parts, value: int)
    requires exists t, point, gap :: IsQuota(t, p, point, gap, value)
    ensures AreParts(p) && QuotaOf(p).Some? && QuotaOf(p).value.value == value
  {
    OnlyScaled(Natural(p.whole + p.fraction), |p.fraction|, QuotaMultiplier(AsciiLower(p.unit)).value, true, value);
  }

  lemma NormalQuota(p: Parts)
    requires AreParts(p) && QuotaOf(p).Some?
    ensures var n := Normal(p, QuotaUnit(AsciiLower(p.unit))); AreParts(n) && QuotaOf(n) == QuotaOf(p)
  {
    var unit := AsciiLower(p.unit);
    QuotaUnitStable(unit);
    StripLeadingKeeps(p.whole);
    StripTrailingKeeps(p.fraction);
    NormalNumber(p, QuotaUnit(unit));
    NormalNonzero(p, QuotaUnit(unit));
    NormalizingKeepsValue(p.whole, p.fraction, QuotaMultiplier(unit).value, true);
  }

  /** The canonical text of a quota reads back to the same text and the same integer. */
  lemma QuotaIsCanonical(input: string)
    requires ParseTrafficQuota(input).Some?
    ensures ParseTrafficQuota(ParseTrafficQuota(input).value.canonical) == ParseTrafficQuota(input)
  {
    var p := ReadParts(Trim(input)).value;
    var unit := AsciiLower(p.unit);
    QuotaUnitStable(unit);
    NormalReads(p, "", QuotaUnit(unit));
    assert "" + QuotaUnit(unit) == QuotaUnit(unit);
    NormalQuota(p);
  }

  // ---- speeds -------------------------------------------------------------------------------------------------

  function SpeedMultiplier(unit: string): Option<nat> {
    if unit == "bps" then Some(1)
    else if unit == "kbps" then Some(1_000)
    else if unit == "mbps" then Some(1_000_000)
    else if unit == "gbps" then Some(1_000_000_000)
    else if unit == "tbps" then Some(1_000_000_000_000)
    else None
  }

  function SpeedUnit(unit: string): string {
    if unit == "bps" || unit == "" then unit else [UpperChar(unit[0]), 'b', 'p', 's']
  }

  function SpeedOf(p: Parts): Option<Parsed>
    requires AreParts(p)
  {
    var unit := AsciiLower(p.unit);
    if |p.fraction| > 3 || SpeedMultiplier(unit).None? then None
    else
      var value := ScaledDecimalInteger(p.whole, p.fraction, SpeedMultiplier(unit).value, false);
      if value <= 0 || value > MAX_I64 then None
      else Some(Parsed(NormalizeDecimalParts(p.whole, p.fraction) + (" " + SpeedUnit(unit)), value))
  }

  function ParsePortSpeed(input: string): Option<Parsed> {
    var parts := ReadParts(Trim(input));
    if parts.None? then None else SpeedOf(parts.value)
  }

  /** Canonical speeds have a capital prefix. */
  lemma SpeedUnitSpelling(unit: string)
    requires SpeedMultiplier(unit).Some?
    ensures var u := SpeedUnit(unit);
            && (unit == "bps" ==> u == "bps")
            && (unit != "bps" ==> |u| == 4 && u[0] in "KMGT" && Rank(unit[0]) == Rank(LowerChar(u[0])) > 0 && u[1..] == "bps")
  {
  }

  /** Bits per second and its decimal multiples `kbps` to `tbps`, and no other unit. */
  lemma SpeedUnitsArePowers(unit: string)
    ensures SpeedMultiplier(unit) ==
            if unit == "bps" then Some(1)
            else if |unit| == 4 && Rank(unit[0]) > 0 && unit[1] == 'b' && unit[2] == 'p' && unit[3] == 's'
            then Some(RaisedTo(1000, Rank(unit[0])))
            else None
  {
    Powers();
    if |unit| == 4 {
      assert unit == [unit[0], unit[1], unit[2], unit[3]];
    }
  }

  lemma SpeedUnitStable(unit: string)
    requires SpeedMultiplier(unit).Some?
    ensures AllOf(SpeedUnit(unit), IsLetter) && AsciiLower(SpeedUnit(unit)) == unit
  {
    assert |unit| <= 4;
    assert |AsciiLower(SpeedUnit(unit))| == |unit|;
  }

  /** What an accepted speed is: a pattern match with a known unit whose exact scaled value, rounded down, is positive and fits. */
  ghost predicate IsSpeed(t: string, p: Parts, point: bool, gap: string, value: int) {
    && Written(t, p, point, gap) && |p.fraction| <= 3 && SpeedMultiplier(AsciiLower(p.unit)).Some?
    && IsRounding(value, Natural(p.whole + p.fraction) * SpeedMultiplier(AsciiLower(p.unit)).value, Power(|p.fraction|), false)
    && 0 < value <= MAX_I64
  }

  lemma SpeedIsExact(input: string)
    requires ParsePortSpeed(input).Some?
    ensures exists p, point, gap :: IsSpeed(Trim(input), p, point, gap, ParsePortSpeed(input).value.value)
  {
    ReadIsSound(Trim(input));
    var p := ReadParts(Trim(input)).value;
    var point, gap :| Written(Trim(input), p, point, gap);
    ScaledIsRounding(Natural(p.whole + p.fraction), |p.fraction|, SpeedMultiplier(AsciiLower(p.unit)).value, false);
    assert IsSpeed(Trim(input), p, point, gap, ParsePortSpeed(input).value.value);
  }

  /** Everything that is a speed is accepted, with its value. */
  lemma SpeedIsAccepted(input: string, p: Parts, point: bool, gap: string, value: int)
    requires IsSpeed(Trim(input), p, point, gap, value)
    ensures ParsePortSpeed(input).Some? && ParsePortSpeed(input).value.value == value
  {
    ReadIsComplete(Trim(input), p, point, gap);
    SpeedOfParts(p, value);
  }

  lemma SpeedOfParts(p: Parts, value: int)
    requires exists t, point, gap :: IsSpeed(t, p, point, gap, value)
    ensures AreParts(p) && SpeedOf(p).Some? && SpeedOf(p).value.value == value
  {
    OnlyScaled(Natural(p.whole + p.fraction), |p.fraction|, SpeedMultiplier(AsciiLower(p.unit)).value, false, value);
  }

  lemma NormalSpeed(p: Parts)
    requires AreParts(p) && SpeedOf(p).Some?
    ensures var n := Normal(p, SpeedUnit(AsciiLower(p.unit))); AreParts(n) && SpeedOf(n) == SpeedOf(p)
  {
    var unit := AsciiLower(p.unit);
    SpeedUnitStable(unit);
    StripLeadingKeeps(p.whole);
    StripTrailingKeeps(p.fraction);
    NormalNumber(p, SpeedUnit(unit));
    NormalizingKeepsValue(p.whole, p.fraction, SpeedMultiplier(unit).value, false);
  }

  /** The canonical text of a speed reads back to the same text and the same integer. */
  lemma SpeedIsCanonical(input: string)
    requires ParsePortSpeed(input).Some?
    ensures ParsePortSpeed(ParsePortSpeed(input).value.canonical) == ParsePortSpeed(input)
  {
    var p := ReadParts(Trim(input)).value;
    var unit := AsciiLower(p.unit);
    SpeedUnitStable(unit);
    NormalReads(p, " ", SpeedUnit(unit));
    NormalSpeed(p);
  }
}
