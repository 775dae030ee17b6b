/**
 Port lists and port mappings, frontend/src/portForwarding.ts: reading a list of ports and ranges,
 printing it, and pairing incoming with target ranges.
 */
module PortForwarding {
  import opened Options
  import opened Texts
  import opened Decimals

  const MAX_ITEMS := 256
  const MAX_PORT := 65_535

  datatype Range = Range(start: int, end: int)

  datatype Mapping = Mapping(incoming: Range, target: Range)

  predicate IsRange(r: Range) {
    1 <= r.start <= r.end <= MAX_PORT
  }

  predicate AreRanges(s: seq<Range>) {
    forall i | 0 <= i < |s| :: IsRange(s[i])
  }

  predicate Apart(a: Range, b: Range) {
    a.end < b.start || b.end < a.start
  }

  predicate Disjoint(s: seq<Range>) {
    forall i, j | 0 <= i < j < |s| :: Apart(s[i], s[j])
  }

  // ---- splitting and joining ------------------------------------------------------------------------------

  function Split(s: string, sep: char): (r: seq<string>)
    ensures |r| >= 1
  {
    if s == "" then [""]
    else
      var rest := Split(s[1..], sep);
      if s[0] == sep then [""] + rest else [[s[0]] + rest[0]] + rest[1..]
  }

  function Join(parts: seq<string>, sep: char): string {
    if parts == [] then "" else if |parts| == 1 then parts[0] else parts[0] + [sep] + Join(parts[1..], sep)
  }

  lemma {:induction false} SplitPiece(a: string, sep: char)
    requires sep !in a
    ensures Split(a, sep) == [a]
  {
    if a != "" {
      SplitPiece(a[1..], sep);
      assert [a[0]] + a[1..] == a;
    }
  }

  lemma {:induction false} SplitFirst(a: string, b: string, sep: char)
    requires sep !in a
    ensures Split(a + [sep] + b, sep) == [a] + Split(b, sep)
  {
    var s := a + [sep] + b;
    if a == "" {
      assert s[1..] == b;
    } else {
      SplitFirst(a[1..], b, sep);
      assert s[1..] == a[1..] + [sep] + b;
      assert [a[0]] + a[1..] == a;
    }
  }

  lemma {:induction false} SplitOfJoin(parts: seq<string>, sep: char)
    requires parts != [] && forall i | 0 <= i < |parts| :: sep !in parts[i]
    ensures Split(Join(parts, sep), sep) == parts
  {
    if |parts| == 1 {
      SplitPiece(parts[0], sep);
    } else {
      SplitOfJoin(parts[1..], sep);
      SplitFirst(parts[0], Join(parts[1..], sep), sep);
      assert [parts[0]] + parts[1..] == parts;
    }
  }

  // ---- reading ----------------------------------------------------------------------------------------------

  function ParsePort(value: string): (r: Option<int>)
    ensures r.Some? ==> 1 <= r.value <= MAX_PORT
  {
    var digits := Trim(value);
    if digits == "" || !AllDigits(digits) then None
    else if 1 <= Natural(digits) <= MAX_PORT then Some(Natural(digits)) else None
  }

  function ReadRange(raw: string): (r: Option<Range>)
    ensures r.Some? ==> IsRange(r.value)
  {
    var item := Trim(raw);
    var fields := Split(item, '-');
    if item == "" || |fields| > 2 then None
    else
      var start := ParsePort(fields[0]);
      var end := if |fields| == 2 then ParsePort(fields[1]) else start;
      if start.None? || end.None? || start.value > end.value then None else Some(Range(start.value, end.value))
  }

  function ReadRanges(raws: seq<string>): (r: Option<seq<Range>>)
    ensures r.Some? ==> AreRanges(r.value) && |r.value| == |raws|
    ensures r.Some? <==> forall i | 0 <= i < |raws| :: ReadRange(raws[i]).Some?
    ensures r.Some? ==> forall i | 0 <= i < |raws| :: ReadRange(raws[i]) == Some(r.value[i])
  {
    if raws == [] then Some([])
    else
      var first, rest := ReadRange(raws[0]), ReadRanges(raws[1..]);
      assert forall i | 0 < i < |raws| :: raws[i] == raws[1..][i - 1];
      if first.Some? && rest.Some? then Some([first.value] + rest.value) else None
  }

  /** The ranges of an acceptable expression: at most 256 items that read as ranges, no two overlapping. */
  function PortList(expression: string): Option<seq<Range>> {
    var text := Trim(expression);
    var ranges := ReadRanges(Split(text, ','));
    if text != "" && ranges.Some? && |ranges.value| <= MAX_ITEMS && Disjoint(ranges.value) then ranges else None
  }

  // ---- the sorted-neighbour test ------------------------------------------------------------------------------

  predicate Before(a: Range, b: Range) {
    a.start < b.start || (a.start == b.start && a.end <= b.end)
  }

  ghost predicate IsSorted(s: seq<Range>) {
    forall i, j | 0 <= i < j < |s| :: Before(s[i], s[j])
  }

  function InsertRange(x: Range, s: seq<Range>): (r: seq<Range>)
    ensures multiset(r) == multiset{x} + multiset(s) && |r| == |s| + 1
  {
    if s == [] || Before(x, s[0]) then [x] + s
    else
      assert s == [s[0]] + s[1..];
      [s[0]] + InsertRange(x, s[1..])
  }

  function SortRanges(s: seq<Range>): (r: seq<Range>)
    ensures multiset(r) == multiset(s) && |r| == |s|
  {
    if s == [] then []
    else
      assert s == [s[0]] + s[1..];
      InsertRange(s[0], SortRanges(s[1..]))
  }

  lemma {:induction false} InsertKeepsSorted(x: Range, s: seq<Range>)
    requires IsSorted(s)
    ensures IsSorted(InsertRange(x, s))
  {
    if s != [] && !Before(x, s[0]) {
      var rest := InsertRange(x, s[1..]);
      InsertKeepsSorted(x, s[1..]);
      forall j | 0 <= j < |rest|
        ensures Before(s[0], rest[j])
      {
        assert rest[j] in multiset(rest);
        assert rest[j] == x || rest[j] in s[1..];
      }
    }
  }

  lemma {:induction false} SortSorts(s: seq<Range>)
    ensures IsSorted(SortRanges(s))
  {
    if s != [] {
      SortSorts(s[1..]);
      InsertKeepsSorted(s[0], SortRanges(s[1..]));
    }
  }

  ghost predicate ApartFromAll(x: Range, s: seq<Range>) {
    forall i | 0 <= i < |s| :: Apart(x, s[i])
  }

  lemma DisjointCons(x: Range, s: seq<Range>)
    ensures Disjoint([x] + s) <==> ApartFromAll(x, s) && Disjoint(s)
  {
    var t := [x] + s;
    if Disjoint(t) {
      assert forall i | 0 <= i < |s| :: t[i + 1] == s[i] && Apart(t[0], t[i + 1]);
    }
  }

  lemma {:induction false} InsertKeepsDisjoint(x: Range, s: seq<Range>)
    ensures Disjoint(InsertRange(x, s)) <==> ApartFromAll(x, s) && Disjoint(s)
  {
    if s == [] || Before(x, s[0]) {
      DisjointCons(x, s);
    } else {
      var rest := InsertRange(x, s[1..]);
      assert s == [s[0]] + s[1..];
      InsertKeepsDisjoint(x, s[1..]);
      DisjointCons(s[0], rest);
      DisjointCons(s[0], s[1..]);
      ApartFromInserted(s[0], x, s[1..]);
      assert ApartFromAll(x, s) <==> Apart(x, s[0]) && ApartFromAll(x, s[1..]) by {
        assert forall i | 0 < i < |s| :: s[i] == s[1..][i - 1];
      }
    }
  }

  lemma ApartFromInserted(y: Range, x: Range, s: seq<Range>)
    ensures ApartFromAll(y, InsertRange(x, s)) <==> Apart(y, x) && ApartFromAll(y, s)
  {
    var r := InsertRange(x, s);
    if ApartFromAll(y, r) {
      assert x in multiset(r);
      forall i | 0 <= i < |s|
        ensures Apart(y, s[i])
      {
        assert s[i] in multiset(r);
      }
    }
    if Apart(y, x) && ApartFromAll(y, s) {
      forall i | 0 <= i < |r|
        ensures Apart(y, r[i])
      {
        assert r[i] in multiset(r);
        assert r[i] == x || r[i] in s;
      }
    }
  }

  lemma {:induction false} SortKeepsDisjoint(s: seq<Range>)
    ensures Disjoint(SortRanges(s)) <==> Disjoint(s)
  {
    if s != [] {
      var sorted := SortRanges(s[1..]);
      SortKeepsDisjoint(s[1..]);
      assert s == [s[0]] + s[1..];
      DisjointCons(s[0], s[1..]);
      InsertKeepsDisjoint(s[0], sorted);
      SameElements(s[0], sorted, s[1..]);
    }
  }

  lemma SameElements(x: Range, a: seq<Range>, b: seq<Range>)
    requires multiset(a) == multiset(b)
    ensures ApartFromAll(x, a) <==> ApartFromAll(x, b)
  {
    if ApartFromAll(x, a) {
      ApartByElements(x, a, b);
    } else if ApartFromAll(x, b) {
      ApartByElements(x, b, a);
    }
  }

  lemma ApartByElements(x: Range, a: seq<Range>, b: seq<Range>)
    requires multiset(a) == multiset(b) && ApartFromAll(x, a)
    ensures ApartFromAll(x, b)
  {
    forall j | 0 <= j < |b|
      ensures Apart(x, b[j])
    {
      assert b[j] in multiset(b);
      assert b[j] in multiset(a);
      assert b[j] in a;
    }
  }

  lemma SortKeepsRanges(s: seq<Range>)
    requires AreRanges(s)
    ensures AreRanges(SortRanges(s))
  {
    var sorted := SortRanges(s);
    forall j | 0 <= j < |sorted|
      ensures IsRange(sorted[j])
    {
      assert sorted[j] in multiset(sorted);
      assert sorted[j] in multiset(s);
      assert sorted[j] in s;
    }
  }

  ghost predicate NeighboursApart(s: seq<Range>, n: nat)
    requires n <= |s|
  {
    forall k | 0 < k < n :: s[k - 1].end < s[k].start
  }

  /** In a sorted list, comparing neighbours finds every overlap. */
  lemma {:induction false} NeighboursSuffice(s: seq<Range>, i: nat, j: nat)
    requires AreRanges(s) && NeighboursApart(s, |s|) && i < j < |s|
    ensures s[i].end < s[j].start
  {
    if i < j - 1 {
      NeighboursSuffice(s, i, j - 1);
    }
  }

  lemma NeighboursDecide(s: seq<Range>)
    requires IsSorted(s) && AreRanges(s)
    ensures NeighboursApart(s, |s|) <==> Disjoint(s)
  {
    if NeighboursApart(s, |s|) {
      forall i, j | 0 <= i < j < |s|
        ensures Apart(s[i], s[j])
      {
        NeighboursSuffice(s, i, j);
      }
    } else {
      var k :| 0 < k < |s| && s[k - 1].end >= s[k].start;
      assert Before(s[k - 1], s[k]) && IsRange(s[k - 1]) && IsRange(s[k]);
      assert !Apart(s[k - 1], s[k]);
    }
  }

  /** Sorts a copy and compares neighbours. */
  method HasOverlap(ranges: seq<Range>) returns (overlap: bool)
    requires AreRanges(ranges)
    ensures overlap <==> !Disjoint(ranges)
  {
    var sorted := SortRanges(ranges);
    SortSorts(ranges);
    SortKeepsDisjoint(ranges);
    SortKeepsRanges(ranges);
    NeighboursDecide(sorted);
    var index := 1;
    while index < |sorted|
      invariant 1 <= index && forall k | 0 < k < index && k < |sorted| :: sorted[k - 1].end < sorted[k].start
    {
      if sorted[index].start <= sorted[index - 1].end {
        return true;
      }
      index := index + 1;
    }
    overlap := false;
  }

  method ParsePortExpression(expression: string) returns (r: Option<seq<Range>>)
    ensures r == PortList(expression)
  {
    var normalized := Trim(expression);
    if normalized == "" {
      return None;
    }
    r := ReadRanges(Split(normalized, ','));
    if r.None? || |r.value| > MAX_ITEMS {
      return None;
    }
    var overlap := HasOverlap(r.value);
    if overlap {
      return None;
    }
  }

  // ---- printing -----------------------------------------------------------------------------------------------

  function FormatPortRange(r: Range): string
    requires IsRange(r)
  {
    if r.start == r.end then ToText(r.start) else ToText(r.start) + "-" + ToText(r.end)
  }

  function RangeTexts(s: seq<Range>): seq<string>
    requires AreRanges(s)
  {
    seq(|s|, i requires 0 <= i < |s| => FormatPortRange(s[i]))
  }

  function PrintRanges(s: seq<Range>): string
    requires AreRanges(s)
  {
    Join(RangeTexts(s), ',')
  }

  lemma PortReadsBack(n: int)
    requires 1 <= n <= MAX_PORT
    ensures ParsePort(ToText(n)) == Some(n) && '-' !in ToText(n)
  {
    var s := ToText(n);
    assert IsDigit(s[0]) && IsDigit(s[|s| - 1]);
    TrimFixed(s);
    assert forall i | 0 <= i < |s| :: IsDigit(s[i]);
  }

  predicate PlainEnds(s: string) {
    s != "" && IsDigit(s[0]) && IsDigit(s[|s| - 1])
  }

  /** A printed range starts and ends with a digit and has no comma. */
  lemma FormatIsPlain(r: Range)
    requires IsRange(r)
    ensures PlainEnds(FormatPortRange(r)) && ',' !in FormatPortRange(r)
  {
    var a, b := ToText(r.start), ToText(r.end);
    var s := FormatPortRange(r);
    assert s[0] == a[0];
    assert s[|s| - 1] == if r.start == r.end then a[|a| - 1] else b[|b| - 1];
    assert IsDigit(a[0]) && IsDigit(a[|a| - 1]) && IsDigit(b[|b| - 1]);
    assert forall i | 0 <= i < |s| :: IsDigit(s[i]) || s[i] == '-';
  }

  lemma FieldsOf(r: Range)
    requires IsRange(r)
    ensures Split(FormatPortRange(r), '-') == if r.start == r.end then [ToText(r.start)] else [ToText(r.start), ToText(r.end)]
  {
    PortReadsBack(r.start);
    PortReadsBack(r.end);
    SplitPiece(ToText(r.start), '-');
    SplitPiece(ToText(r.end), '-');
    SplitFirst(ToText(r.start), ToText(r.end), '-');
  }

  lemma RangeReadsBack(r: Range)
    requires IsRange(r)
    ensures ReadRange(FormatPortRange(r)) == Some(r)
  {
    FormatIsPlain(r);
    TrimFixed(FormatPortRange(r));
    PortReadsBack(r.start);
    PortReadsBack(r.end);
    FieldsOf(r);
  }

  lemma {:induction false} JoinEnds(parts: seq<string>)
    requires parts != [] && forall i | 0 <= i < |parts| :: PlainEnds(parts[i])
    ensures PlainEnds(Join(parts, ','))
  {
    if |parts| > 1 {
      JoinEnds(parts[1..]);
      assert PlainEnds(parts[0]);
    }
  }

  /** Printing any list of at most 256 disjoint ranges and reading it gives the list back. */
  lemma PrintThenRead(s: seq<Range>)
    requires s != [] && AreRanges(s)
    ensures PortList(PrintRanges(s)) == if |s| <= MAX_ITEMS && Disjoint(s) then Some(s) else None
  {
    var texts := RangeTexts(s);
    TextsReadBack(s);
    JoinEnds(texts);
    TrimFixed(PrintRanges(s));
    SplitOfJoin(texts, ',');
  }

  lemma TextsReadBack(s: seq<Range>)
    requires AreRanges(s)
    ensures ReadRanges(RangeTexts(s)) == Some(s)
    ensures forall i | 0 <= i < |s| :: ',' !in RangeTexts(s)[i] && PlainEnds(RangeTexts(s)[i])
  {
    var texts := RangeTexts(s);
    forall i | 0 <= i < |s|
      ensures ReadRange(texts[i]) == Some(s[i]) && ',' !in texts[i] && PlainEnds(texts[i])
    {
      FormatIsPlain(s[i]);
      RangeReadsBack(s[i]);
    }
    assert ReadRanges(texts).Some?;
    assert ReadRanges(texts).value == s;
  }

  // ---- pairing ------------------------------------------------------------------------------------------------

  function Size(r: Range): int {
    r.end - r.start + 1
  }

  predicate SizesFit(m: Mapping) {
    Size(m.target) == 1 || Size(m.target) == Size(m.incoming)
  }

  /** The target range is the incoming range moved by some distance. */
  ghost predicate IsMoved(m: Mapping) {
    exists d :: IsMovedBy(m, d)
  }

  predicate IsMovedBy(m: Mapping, d: int) {
    m.target == Range(m.incoming.start + d, m.incoming.end + d)
  }

  /** A mapping is accepted exactly when all its ports go to one port, or each goes to its own port the same distance away. */
  lemma FitMeans(m: Mapping)
    ensures SizesFit(m) <==> m.target.start == m.target.end || IsMoved(m)
  {
    var d := m.target.start - m.incoming.start;
    if Size(m.target) == Size(m.incoming) {
      assert IsMovedBy(m, d);
    }
  }

  /** One target port serves every incoming item. */
  predicate IsBroadcast(targets: seq<Range>) {
    |targets| == 1 && targets[0].start == targets[0].end
  }

  function Matched(incoming: seq<Range>, targets: seq<Range>): Option<seq<Mapping>> {
    if IsBroadcast(targets) then Some(seq(|incoming|, i requires 0 <= i < |incoming| => Mapping(incoming[i], targets[0])))
    else if |targets| != |incoming| then None
    else Some(seq(|incoming|, i requires 0 <= i < |incoming| => Mapping(incoming[i], targets[i])))
  }

  predicate AllFit(ms: seq<Mapping>) {
    forall i | 0 <= i < |ms| :: SizesFit(ms[i])
  }

  /** What two expressions pair to: matched ranges whose sizes all fit. */
  function Pairing(incoming: string, target: string): Option<seq<Mapping>> {
    var a, b := PortList(incoming), PortList(target);
    if a.None? || b.None? then None
    else
      var ms := Matched(a.value, b.value);
      if ms.Some? && AllFit(ms.value) then ms else None
  }

  method PairPortExpressions(incoming: string, target: string) returns (r: Option<seq<Mapping>>)
    ensures r == Pairing(incoming, target)
  {
    var a := ParsePortExpression(incoming);
    if a.None? {
      return None;
    }
    var b := ParsePortExpression(target);
    if b.None? {
      return None;
    }
    r := Matched(a.value, b.value);
    if r.Some? {
      var fit := SizesAllFit(r.value);
      if !fit {
        return None;
      }
    }
  }

  method SizesAllFit(ms: seq<Mapping>) returns (fit: bool)
    ensures fit <==> AllFit(ms)
  {
    var k := 0;
    while k < |ms|
      invariant 0 <= k <= |ms| && forall i | 0 <= i < k :: SizesFit(ms[i])
    {
      if !SizesFit(ms[k]) {
        return false;
      }
      k := k + 1;
    }
    fit := true;
  }

  function Incoming(ms: seq<Mapping>): seq<Range> {
    seq(|ms|, i requires 0 <= i < |ms| => ms[i].incoming)
  }

  function Targets(ms: seq<Mapping>): seq<Range> {
    seq(|ms|, i requires 0 <= i < |ms| => ms[i].target)
  }

  function MappingsToExpressions(ms: seq<Mapping>): (string, string)
    requires AreRanges(Incoming(ms)) && AreRanges(Targets(ms))
  {
    (PrintRanges(Incoming(ms)), PrintRanges(Targets(ms)))
  }

  lemma ListIsPlain(expression: string)
    requires PortList(expression).Some?
    ensures var s := PortList(expression).value; s != [] && AreRanges(s) && Disjoint(s) && |s| <= MAX_ITEMS
  {
  }

  /** What a successful pairing consists of. */
  lemma PairingParts(incoming: string, target: string)
    requires Pairing(incoming, target).Some?
    ensures var ms, a, b := Pairing(incoming, target).value, PortList(incoming), PortList(target);
            && a.Some? && b.Some? && ms != [] && AllFit(ms) && Incoming(ms) == a.value
            && AreRanges(Incoming(ms)) && AreRanges(Targets(ms)) && Disjoint(Incoming(ms)) && |ms| <= MAX_ITEMS
            && (IsBroadcast(b.value) ==> forall i | 0 <= i < |ms| :: ms[i].target == b.value[0])
            && (!IsBroadcast(b.value) ==> Targets(ms) == b.value)
  {
    ListIsPlain(incoming);
    ListIsPlain(target);
    var ms, a, b := Pairing(incoming, target).value, PortList(incoming).value, PortList(target).value;
    assert Incoming(ms) == a;
    assert !IsBroadcast(b) ==> Targets(ms) == b;
  }

  /** The targets are disjoint unless one port serves several incoming items. */
  lemma TargetsDisjointIff(incoming: string, target: string)
    requires Pairing(incoming, target).Some?
    ensures Disjoint(Targets(Pairing(incoming, target).value)) <==>
            |PortList(incoming).value| == 1 || !IsBroadcast(PortList(target).value)
  {
    PairingParts(incoming, target);
    ListIsPlain(target);
    var ms, b := Pairing(incoming, target).value, PortList(target).value;
    assert |ms| == |PortList(incoming).value|;
    if IsBroadcast(b) && |ms| > 1 {
      assert Targets(ms)[0] == Targets(ms)[1] == b[0];
      assert !Apart(Targets(ms)[0], Targets(ms)[1]);
    }
  }

  lemma MatchedAgain(ms: seq<Mapping>)
    requires ms != [] && Disjoint(Targets(ms)) && AreRanges(Targets(ms))
    ensures Matched(Incoming(ms), Targets(ms)) == Some(ms)
  {
    var a, b := Incoming(ms), Targets(ms);
    assert IsBroadcast(b) ==> |ms| == 1;
    assert Matched(a, b).Some?;
    var r := Matched(a, b).value;
    assert forall i | 0 <= i < |ms| :: r[i] == ms[i];
    assert r == ms;
  }

  /** Printing a pairing and pairing again gives it back exactly when no port serves several incoming items. */
  lemma PrintThenPair(incoming: string, target: string)
    requires Pairing(incoming, target).Some?
    ensures var ms := Pairing(incoming, target).value;
            AreRanges(Incoming(ms)) && AreRanges(Targets(ms)) &&
            var texts := MappingsToExpressions(ms);
            Pairing(texts.0, texts.1) ==
            if |PortList(incoming).value| == 1 || !IsBroadcast(PortList(target).value) then Some(ms) else None
  {
    var ms := Pairing(incoming, target).value;
    PairingParts(incoming, target);
    TargetsDisjointIff(incoming, target);
    PrintThenRead(Incoming(ms));
    PrintThenRead(Targets(ms));
    if Disjoint(Targets(ms)) {
      MatchedAgain(ms);
    }
  }
}
