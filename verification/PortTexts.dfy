/**
 Which texts are port lists (frontend/src/portForwarding.ts): numbers and ranges, with any leading
 zeros and any white space around each number, separated by commas.
 */
module PortTexts {
  import opened Options
  import opened Texts
  import opened Decimals
  import opened PortForwarding

  // ---- ports ------------------------------------------------------------------------------------------------

  ghost predicate IsSpaced(raw: string, lead: string, digits: string, tail: string) {
    raw == lead + digits + tail && AllSpaces(lead) && AllSpaces(tail) && digits != "" && AllDigits(digits)
  }

  /** Digits of this number between white space. */
  ghost predicate IsPortText(raw: string, n: int) {
    1 <= n <= MAX_PORT && exists lead, digits, tail :: IsSpaced(raw, lead, digits, tail) && Natural(digits) == n
  }

  lemma DigitsAreTight(digits: string)
    requires digits != "" && AllDigits(digits)
    ensures IsTight(digits)
  {
    assert IsDigit(digits[0]) && IsDigit(digits[|digits| - 1]);
  }

  lemma PortReadsExactly(raw: string, n: int)
    ensures ParsePort(raw) == Some(n) <==> IsPortText(raw, n)
  {
    if ParsePort(raw) == Some(n) {
      var lead, tail := TrimSplits(raw);
      assert IsSpaced(raw, lead, Trim(raw), tail);
    }
    if IsPortText(raw, n) {
      var lead, digits, tail :| IsSpaced(raw, lead, digits, tail) && Natural(digits) == n;
      DigitsAreTight(digits);
      TrimIs(lead, digits, tail);
    }
  }

  lemma PortTextIsPlain(raw: string, n: int)
    requires IsPortText(raw, n)
    ensures '-' !in raw && ',' !in raw
  {
    var lead, digits, tail :| IsSpaced(raw, lead, digits, tail) && Natural(digits) == n;
    forall i | 0 <= i < |raw|
      ensures IsSpace(raw[i]) || IsDigit(raw[i])
    {
      if i < |lead| {
        assert raw[i] == lead[i];
      } else if i < |lead| + |digits| {
        assert raw[i] == digits[i - |lead|];
      } else {
        assert raw[i] == tail[i - |lead| - |digits|];
      }
    }
  }

  /** White space around a port changes nothing. */
  lemma MoreSpace(lead: string, raw: string, tail: string, n: int)
    requires AllSpaces(lead) && AllSpaces(tail) && IsPortText(raw, n)
    ensures IsPortText(lead + raw + tail, n)
  {
    var l, digits, t :| IsSpaced(raw, l, digits, t) && Natural(digits) == n;
    assert lead + raw + tail == (lead + l) + digits + (t + tail);
    assert IsSpaced(lead + raw + tail, lead + l, digits, t + tail);
  }

  // ---- ranges ------------------------------------------------------------------------------------------------

  ghost predicate IsPairText(raw: string, a: string, b: string, r: Range) {
    raw == a + "-" + b && IsPortText(a, r.start) && IsPortText(b, r.end)
  }

  /** One port, or two with a dash between them, the first not above the second. */
  ghost predicate IsRangeText(raw: string, r: Range) {
    r.start <= r.end && ((r.start == r.end && IsPortText(raw, r.start)) || exists a, b :: IsPairText(raw, a, b, r))
  }

  lemma {:induction false} SplitIsJoin(s: string, sep: char)
    ensures Join(Split(s, sep), sep) == s
    ensures forall i | 0 <= i < |Split(s, sep)| :: sep !in Split(s, sep)[i]
  {
    if s != "" {
      var rest := Split(s[1..], sep);
      SplitIsJoin(s[1..], sep);
      assert s == [s[0]] + s[1..];
      if s[0] == sep {
        assert ([""] + rest)[1..] == rest;
        assert "" + [sep] + s[1..] == [sep] + s[1..];
      } else {
        JoinGrows(s[0], rest, sep);
      }
    }
  }

  lemma JoinGrows(c: char, parts: seq<string>, sep: char)
    requires parts != []
    ensures Join([[c] + parts[0]] + parts[1..], sep) == [c] + Join(parts, sep)
  {
    var all := [[c] + parts[0]] + parts[1..];
    if |parts| > 1 {
      assert all[1..] == parts[1..];
      assert [c] + parts[0] + [sep] + Join(parts[1..], sep) == [c] + (parts[0] + [sep] + Join(parts[1..], sep));
    }
  }

  lemma JoinOfTwo(a: string, b: string, sep: char)
    ensures Join([a, b], sep) == a + [sep] + b
  {
    assert [a, b][1..] == [b];
  }

  lemma OnePortItem(item: string, n: int)
    requires IsTight(item) && |Split(item, '-')| == 1 && ParsePort(Split(item, '-')[0]) == Some(n)
    ensures IsPortText(item, n)
  {
    SplitIsJoin(item, '-');
    assert Split(item, '-') == [Split(item, '-')[0]];
    PortReadsExactly(item, n);
  }

  lemma TwoPortItem(item: string, r: Range)
    requires |Split(item, '-')| == 2 && ParsePort(Split(item, '-')[0]) == Some(r.start) && ParsePort(Split(item, '-')[1]) == Some(r.end)
    ensures IsPairText(item, Split(item, '-')[0], Split(item, '-')[1], r)
  {
    var a, b := Split(item, '-')[0], Split(item, '-')[1];
    SplitIsJoin(item, '-');
    assert Split(item, '-') == [a, b];
    JoinOfTwo(a, b, '-');
    PortReadsExactly(a, r.start);
    PortReadsExactly(b, r.end);
  }

  lemma ReadRangeIsText(raw: string, r: Range)
    requires ReadRange(raw) == Some(r)
    ensures IsRangeText(raw, r)
  {
    var item := Trim(raw);
    var lead, tail := TrimSplits(raw);
    if |Split(item, '-')| == 1 {
      OnePortItem(item, r.start);
      MoreSpace(lead, item, tail, r.start);
    } else {
      var a, b := Split(item, '-')[0], Split(item, '-')[1];
      TwoPortItem(item, r);
      MoreSpace(lead, a, "", r.start);
      MoreSpace("", b, tail, r.end);
      assert lead + item + tail == (lead + a + "") + "-" + ("" + b + tail);
      assert IsPairText(raw, lead + a + "", "" + b + tail, r);
    }
  }

  lemma OnePortReads(raw: string, n: int)
    requires IsPortText(raw, n)
    ensures ReadRange(raw) == Some(Range(n, n))
  {
    var lead, digits, tail :| IsSpaced(raw, lead, digits, tail) && Natural(digits) == n;
    DigitsAreTight(digits);
    TrimIs(lead, digits, tail);
    assert IsSpaced(digits, "", digits, "");
    PortTextIsPlain(digits, n);
    SplitPiece(digits, '-');
    PortReadsExactly(digits, n);
  }

  lemma TwoPortsRead(raw: string, a: string, b: string, r: Range)
    requires IsPairText(raw, a, b, r) && r.start <= r.end
    ensures ReadRange(raw) == Some(r)
  {
    var la, da, ta :| IsSpaced(a, la, da, ta) && Natural(da) == r.start;
    var lb, db, tb :| IsSpaced(b, lb, db, tb) && Natural(db) == r.end;
    var x, y := da + ta, lb + db;
    var item := x + "-" + y;
    DigitsAreTight(da);
    DigitsAreTight(db);
    assert raw == la + item + tb;
    assert item[0] == da[0] && item[|item| - 1] == db[|db| - 1];
    TrimIs(la, item, tb);
    assert IsSpaced(x, "", da, ta) && IsSpaced(y, lb, db, "");
    PortTextIsPlain(x, r.start);
    PortTextIsPlain(y, r.end);
    SplitFirst(x, y, '-');
    SplitPiece(y, '-');
    PortReadsExactly(x, r.start);
    PortReadsExactly(y, r.end);
  }

  /** Exactly the texts of ranges are read as ranges. */
  lemma RangeReadsExactly(raw: string, r: Range)
    ensures ReadRange(raw) == Some(r) <==> IsRangeText(raw, r)
  {
    if ReadRange(raw) == Some(r) {
      ReadRangeIsText(raw, r);
    }
    if IsRangeText(raw, r) {
      if r.start == r.end && IsPortText(raw, r.start) {
        OnePortReads(raw, r.start);
      } else {
        var a, b :| IsPairText(raw, a, b, r);
        TwoPortsRead(raw, a, b, r);
      }
    }
  }

  // ---- lists -------------------------------------------------------------------------------------------------

  lemma RangeTextIsPlain(raw: string, r: Range)
    requires IsRangeText(raw, r)
    ensures ',' !in raw && raw != ""
  {
    if r.start == r.end && IsPortText(raw, r.start) {
      PortTextIsPlain(raw, r.start);
    } else {
      var a, b :| IsPairText(raw, a, b, r);
      PortTextIsPlain(a, r.start);
      PortTextIsPlain(b, r.end);
    }
  }

  /** The texts of these ranges, separated by commas. */
  ghost predicate IsListText(text: string, parts: seq<string>, ranges: seq<Range>) {
    text == Join(parts, ',') && |parts| == |ranges| > 0 && forall i | 0 <= i < |parts| :: IsRangeText(parts[i], ranges[i])
  }

  lemma ListTextReads(text: string, parts: seq<string>, ranges: seq<Range>)
    requires IsListText(text, parts, ranges)
    ensures text != "" && ReadRanges(Split(text, ',')) == Some(ranges)
  {
    forall i | 0 <= i < |parts|
      ensures ',' !in parts[i] && parts[i] != "" && ReadRange(parts[i]) == Some(ranges[i])
    {
      RangeTextIsPlain(parts[i], ranges[i]);
      RangeReadsExactly(parts[i], ranges[i]);
    }
    SplitOfJoin(parts, ',');
    assert parts[0] != "";
    assert ReadRanges(parts).Some?;
    assert ReadRanges(parts).value == ranges;
  }

  lemma ReadListIsText(text: string, ranges: seq<Range>)
    requires ReadRanges(Split(text, ',')) == Some(ranges)
    ensures IsListText(text, Split(text, ','), ranges)
  {
    var parts := Split(text, ',');
    SplitIsJoin(text, ',');
    forall i | 0 <= i < |parts|
      ensures IsRangeText(parts[i], ranges[i])
    {
      RangeReadsExactly(parts[i], ranges[i]);
    }
  }

  /** A text is accepted, as these ranges, exactly when it is their texts separated by commas, with at most 256
      ranges of which no two overlap. */
  lemma ListReadsExactly(expression: string, ranges: seq<Range>)
    ensures PortList(expression) == Some(ranges) <==>
            |ranges| <= MAX_ITEMS && Disjoint(ranges) && exists parts :: IsListText(Trim(expression), parts, ranges)
  {
    if PortList(expression) == Some(ranges) {
      ReadListIsText(Trim(expression), ranges);
    }
    if parts :| IsListText(Trim(expression), parts, ranges) {
      ListTextReads(Trim(expression), parts, ranges);
    }
  }
}
