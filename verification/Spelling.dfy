/**
 How tokens of the search expression language are written (frontend/src/searchExpression.ts): the
 words and signs, quoted values, regular expressions and terms, with any white space and comments
 around them. Whatever is written this way is read as these tokens.
 */
module Spelling {
  import opened Options
  import opened Texts
  import opened Tokenizer

  // ---- gaps ---------------------------------------------------------------------------------------------------

  predicate IsLineBreak(c: char) {
    c == '\r' || c == '\n'
  }

  /** From a hash to the first line break. */
  predicate IsLineComment(c: string) {
    |c| >= 2 && c[0] == '#' && IsLineBreak(c[|c| - 1]) && forall k | 0 < k < |c| - 1 :: !IsLineBreak(c[k])
  }

  /** From an opening to the first closing delimiter. */
  predicate IsBlockComment(c: string) {
    && |c| >= 4 && c[0] == '/' && c[1] == '*' && c[|c| - 2] == '*' && c[|c| - 1] == '/'
    && forall k | 2 <= k < |c| - 2 :: !(c[k] == '*' && c[k + 1] == '/')
  }

  /** One white space character or one comment. */
  predicate IsBlankPiece(c: string) {
    (|c| == 1 && IsSpace(c[0])) || IsLineComment(c) || IsBlockComment(c)
  }

  predicate IsGap(gap: seq<string>) {
    forall i | 0 <= i < |gap| :: IsBlankPiece(gap[i])
  }

  function Concat(parts: seq<string>): string {
    if parts == [] then "" else parts[0] + Concat(parts[1..])
  }

  ghost predicate At(input: string, i: nat, text: string) {
    i + |text| <= |input| && input[i..i + |text|] == text
  }

  lemma CharsAt(input: string, i: nat, text: string)
    requires At(input, i, text)
    ensures forall k | 0 <= k < |text| :: input[i + k] == text[k]
  {
    forall k | 0 <= k < |text|
      ensures input[i + k] == text[k]
    {
      assert input[i..i + |text|][k] == text[k];
    }
  }

  lemma SplitAt(input: string, i: nat, a: string, b: string)
    requires At(input, i, a + b)
    ensures At(input, i, a) && At(input, i + |a|, b)
  {
    var t := input[i..i + |a + b|];
    assert input[i..i + |a|] == t[..|a|] && input[i + |a|..i + |a| + |b|] == t[|a|..];
  }

  lemma {:induction false} LineEndIs(input: string, i: nat, end: nat)
    requires i <= end < |input| && IsLineBreak(input[end]) && forall k | i <= k < end :: !IsLineBreak(input[k])
    ensures LineEnd(input, i) == end
    decreases end - i
  {
    if i < end {
      LineEndIs(input, i + 1, end);
    }
  }

  lemma {:induction false} BlockEndIs(input: string, i: nat, end: nat)
    requires i <= end && end + 1 < |input| && input[end] == '*' && input[end + 1] == '/'
    requires forall k | i <= k < end :: !(input[k] == '*' && input[k + 1] == '/')
    ensures BlockEnd(input, i) == Some(end + 2)
    decreases end - i
  {
    if i < end {
      BlockEndIs(input, i + 1, end);
    }
  }

  /** What the tokenizer reads from each position on. */
  function Reader(input: string, validRegex: string -> bool): nat -> Scan {
    (k: nat) => if k <= |input| then Tokenize(input, k, false, validRegex) else Scan([], None)
  }

  ghost predicate SameFrom(input: string, i: nat, j: nat, validRegex: string -> bool) {
    Reader(input, validRegex)(i) == Reader(input, validRegex)(j)
  }

  lemma SpaceSkips(input: string, i: nat, validRegex: string -> bool)
    requires i < |input| && IsSpace(input[i])
    ensures SameFrom(input, i, i + 1, validRegex)
  {
  }

  lemma CommentSkips(input: string, i: nat, end: nat, validRegex: string -> bool)
    requires i < end <= |input| && (input[i] == '#' || OpensBlockComment(input, i)) && CommentEnd(input, i) == Some(end)
    ensures SameFrom(input, i, end, validRegex)
  {
    assert NextStep(input, i, validRegex) == Remark(Cut(input, CommentText, i, end));
    assert [] + Tokenize(input, end, false, validRegex).tokens == Tokenize(input, end, false, validRegex).tokens;
  }

  lemma LineCommentEnds(input: string, i: nat, c: string)
    requires At(input, i, c) && IsLineComment(c)
    ensures var end := i + |c| - 1; input[i] == '#' && CommentEnd(input, i) == Some(end) && IsSpace(input[end])
  {
    CharsAt(input, i, c);
    var end := i + |c| - 1;
    assert input[end] == c[|c| - 1];
    forall k | i + 1 <= k < end
      ensures !IsLineBreak(input[k])
    {
      assert input[k] == c[k - i];
    }
    LineEndIs(input, i + 1, end);
  }

  lemma LineCommentSkips(input: string, i: nat, c: string, validRegex: string -> bool)
    requires At(input, i, c) && IsLineComment(c)
    ensures SameFrom(input, i, i + |c|, validRegex)
  {
    var end := i + |c| - 1;
    LineCommentEnds(input, i, c);
    SkipsTwice(input, i, end, validRegex);
    assert end + 1 == i + |c|;
  }

  lemma SkipsTwice(input: string, i: nat, end: nat, validRegex: string -> bool)
    requires i < end < |input| && (input[i] == '#' || OpensBlockComment(input, i)) && CommentEnd(input, i) == Some(end)
    requires IsSpace(input[end])
    ensures SameFrom(input, i, end + 1, validRegex)
  {
    CommentSkips(input, i, end, validRegex);
    SpaceSkips(input, end, validRegex);
  }

  lemma BlockCommentEnds(input: string, i: nat, c: string)
    requires At(input, i, c) && IsBlockComment(c)
    ensures OpensBlockComment(input, i) && input[i] != '#' && CommentEnd(input, i) == Some(i + |c|)
  {
    CharsAt(input, i, c);
    var end := i + |c| - 2;
    assert input[end] == c[|c| - 2] && input[end + 1] == c[|c| - 1] && input[i + 1] == c[1];
    forall k | i + 2 <= k < end
      ensures !(input[k] == '*' && input[k + 1] == '/')
    {
      assert input[k] == c[k - i] && input[k + 1] == c[k + 1 - i];
    }
    BlockEndIs(input, i + 2, end);
  }

  lemma BlockCommentSkips(input: string, i: nat, c: string, validRegex: string -> bool)
    requires At(input, i, c) && IsBlockComment(c)
    ensures SameFrom(input, i, i + |c|, validRegex)
  {
    BlockCommentEnds(input, i, c);
    CommentSkips(input, i, i + |c|, validRegex);
  }

  lemma BlankSkips(input: string, i: nat, c: string, validRegex: string -> bool)
    requires At(input, i, c) && IsBlankPiece(c)
    ensures SameFrom(input, i, i + |c|, validRegex)
  {
    if IsLineComment(c) {
      LineCommentSkips(input, i, c, validRegex);
    } else if IsBlockComment(c) {
      BlockCommentSkips(input, i, c, validRegex);
    } else {
      CharsAt(input, i, c);
      assert input[i + 0] == c[0];
      SpaceSkips(input, i, validRegex);
    }
  }

  // ---- quoted values --------------------------------------------------------------------------------------------

  predicate IsQuote(c: char) {
    c == '"' || c == '\''
  }

  /** How one character is written between quotes. */
  function EscapedChar(q: char, c: char): string {
    if c == '\\' || c == q then ['\\', c] else [c]
  }

  function Escape(q: char, value: string): string {
    if value == "" then "" else EscapedChar(q, value[0]) + Escape(q, value[1..])
  }

  lemma EscapeFirst(q: char, value: string)
    requires value != ""
    ensures Escape(q, value) + [q] == EscapedChar(q, value[0]) + (Escape(q, value[1..]) + [q])
  {
  }

  lemma PrefixedHead(value: string, rest: Extent)
    requires value != ""
    ensures Prefixed([value[0]], Prefixed(value[1..], rest)) == Prefixed(value, rest)
  {
    PrefixedTwice([value[0]], value[1..], rest);
    assert value == [value[0]] + value[1..];
  }

  /** The character written at this place is read as itself. */
  ghost predicate CharAt(input: string, k: nat, q: char, c: char) {
    if c == '\\' || c == q then k + 2 <= |input| && input[k] == '\\' && input[k + 1] == c
    else k + 1 <= |input| && input[k] == c
  }

  lemma CharWritten(input: string, k: nat, q: char, c: char)
    requires At(input, k, EscapedChar(q, c))
    ensures CharAt(input, k, q, c)
  {
    CharsAt(input, k, EscapedChar(q, c));
    assert EscapedChar(q, c)[|EscapedChar(q, c)| - 1] == c;
    assert input[k] == EscapedChar(q, c)[0];
  }

  lemma ScanTermChar(input: string, k: nat, q: char, c: char)
    requires q != '\\' && CharAt(input, k, q, c)
    ensures var n := |EscapedChar(q, c)|;
            ScanTerm(input, k, Some(q), false) == Prefixed([c], ScanTerm(input, k + n, Some(q), false))
  {
    if c == '\\' || c == q {
      assert ScanTerm(input, k + 1, Some(q), true) == Prefixed([c], ScanTerm(input, k + 2, Some(q), false));
    }
  }

  lemma ScanQuotedChar(input: string, k: nat, q: char, c: char)
    requires q != '\\' && CharAt(input, k, q, c)
    ensures var n := |EscapedChar(q, c)|;
            ScanQuoted(input, k, q, false) == Prefixed([c], ScanQuoted(input, k + n, q, false))
  {
    if c == '\\' || c == q {
      assert ScanQuoted(input, k + 1, q, true) == Prefixed([c], ScanQuoted(input, k + 2, q, false));
    }
  }

  lemma ScanTermClose(input: string, k: nat, q: char)
    requires IsQuote(q) && k < |input| && input[k] == q
    ensures ScanTerm(input, k, Some(q), false) == Prefixed("", ScanTerm(input, k + 1, None, false))
  {
    var rest := ScanTerm(input, k + 1, None, false);
    assert "" + rest.value == rest.value;
  }

  /** Inside a term, a quoted part is read as its value and the term goes on behind it. */
  lemma {:induction false} ScanTermQuoted(input: string, k: nat, q: char, value: string, end: nat)
    requires IsQuote(q) && At(input, k, Escape(q, value) + [q]) && end == k + |Escape(q, value)| + 1
    ensures ScanTerm(input, k, Some(q), false) == Prefixed(value, ScanTerm(input, end, None, false))
    decreases |value|
  {
    if value == "" {
      CharsAt(input, k, Escape(q, value) + [q]);
      assert input[k] == (Escape(q, value) + [q])[0] == q;
      ScanTermClose(input, k, q);
    } else {
      var n := |EscapedChar(q, value[0])|;
      EscapedHead(input, k, q, value);
      ScanTermChar(input, k, q, value[0]);
      ScanTermQuoted(input, k + n, q, value[1..], end);
      PrefixedHead(value, ScanTerm(input, end, None, false));
    }
  }

  lemma EscapedHead(input: string, k: nat, q: char, value: string)
    requires value != "" && At(input, k, Escape(q, value) + [q])
    ensures var n := |EscapedChar(q, value[0])|;
            && CharAt(input, k, q, value[0]) && At(input, k + n, Escape(q, value[1..]) + [q])
            && |Escape(q, value)| == n + |Escape(q, value[1..])|
  {
    EscapeFirst(q, value);
    SplitAt(input, k, EscapedChar(q, value[0]), Escape(q, value[1..]) + [q]);
    CharWritten(input, k, q, value[0]);
  }

  lemma ScanQuotedClose(input: string, k: nat, q: char)
    requires IsQuote(q) && k < |input| && input[k] == q
    ensures ScanQuoted(input, k, q, false) == Extent(k + 1, true, "")
  {
  }

  /** A quoted value is read up to its closing quote. */
  lemma {:induction false} ScanQuotedValue(input: string, k: nat, q: char, value: string, end: nat)
    requires IsQuote(q) && At(input, k, Escape(q, value) + [q]) && end == k + |Escape(q, value)| + 1
    ensures ScanQuoted(input, k, q, false) == Prefixed(value, Extent(end, true, ""))
    decreases |value|
  {
    if value == "" {
      CharsAt(input, k, Escape(q, value) + [q]);
      assert input[k] == (Escape(q, value) + [q])[0] == q;
      ScanQuotedClose(input, k, q);
    } else {
      var n := |EscapedChar(q, value[0])|;
      EscapedHead(input, k, q, value);
      ScanQuotedChar(input, k, q, value[0]);
      ScanQuotedValue(input, k + n, q, value[1..], end);
      PrefixedHead(value, Extent(end, true, ""));
    }
  }

  // ---- regular expressions ----------------------------------------------------------------------------------------

  /** A body without an unescaped slash and without a lone backslash at its end. */
  predicate IsRegexBody(v: string) {
    if v == "" then true
    else if v[0] == '\\' then |v| >= 2 && IsRegexBody(v[2..])
    else v[0] != '/' && IsRegexBody(v[1..])
  }

  lemma {:induction false} ScanRegexBody(input: string, k: nat, v: string)
    requires IsRegexBody(v) && At(input, k, v + "/")
    ensures ScanRegex(input, k, false) == Extent(k + |v| + 1, true, v)
    decreases |v|
  {
    CharsAt(input, k, v + "/");
    if v == "" {
      assert input[k] == (v + "/")[0];
    } else {
      var n := if v[0] == '\\' then 2 else 1;
      assert v + "/" == v[..n] + (v[n..] + "/");
      SplitAt(input, k, v[..n], v[n..] + "/");
      assert forall j | 0 <= j < n :: input[k + j] == v[j];
      ScanRegexBody(input, k + n, v[n..]);
      assert v == v[..n] + v[n..];
      if n == 2 {
        assert ScanRegex(input, k + 1, true) == Prefixed(['\\', v[1]], ScanRegex(input, k + 2, false));
        assert v[..2] == ['\\', v[1]];
      } else {
        assert v[..1] == [v[0]];
      }
    }
  }

  // ---- terms --------------------------------------------------------------------------------------------------------

  predicate IsPlain(c: char) {
    !IsTermDelimiter(c) && !IsQuote(c) && c != '#'
  }

  /** Characters that a term may hold without quotes. */
  predicate IsPlainText(value: string) {
    && (forall i | 0 <= i < |value| :: IsPlain(value[i]))
    && (forall i | 0 <= i < |value| :: !OpensBlockComment(value, i))
  }

  /** What follows ends a term. */
  predicate StopsHere(rest: string) {
    rest == "" || IsTermDelimiter(rest[0]) || rest[0] == '#' || OpensBlockComment(rest, 0)
  }

  lemma {:induction false} ScanPlain(input: string, i: nat, j: nat)
    requires i <= j <= |input|
    requires forall k | i <= k < j :: IsPlain(input[k]) && !OpensBlockComment(input, k)
    ensures ScanTerm(input, i, None, false) == Prefixed(input[i..j], ScanTerm(input, j, None, false))
    decreases j - i
  {
    if i < j {
      ScanPlain(input, i + 1, j);
      PrefixedTwice([input[i]], input[i + 1..j], ScanTerm(input, j, None, false));
      assert input[i..j] == [input[i]] + input[i + 1..j];
    } else {
      assert input[i..j] == "";
    }
  }

  /** Plain text is read as itself when no star follows that would open a comment with its last character. */
  lemma ScanPlainText(input: string, i: nat, p: string)
    requires At(input, i, p) && IsPlainText(p) && (i + |p| < |input| ==> input[i + |p|] != '*')
    ensures ScanTerm(input, i, None, false) == Prefixed(p, ScanTerm(input, i + |p|, None, false))
  {
    CharsAt(input, i, p);
    forall k | i <= k < i + |p|
      ensures IsPlain(input[k]) && !OpensBlockComment(input, k)
    {
      assert input[k] == p[k - i];
      assert k + 1 < i + |p| ==> input[k + 1] == p[k + 1 - i];
      assert !OpensBlockComment(p, k - i);
    }
    ScanPlain(input, i, i + |p|);
  }

  // ---- written tokens -------------------------------------------------------------------------------------------------

  /** How a value is written: as it is, in quotes, or with the quotes after some plain characters. */
  datatype Style = Plain | Quoted(quote: char) | Mixed(head: nat, quote: char)

  /** A token as it is written, and the white space and comments behind it. */
  datatype Spelled = Spelled(lexeme: Lexeme, style: Style, gap: seq<string>)

  function QuotedText(q: char, value: string): string {
    [q] + (Escape(q, value) + [q])
  }

  function Written(l: Lexeme, style: Style): string {
    match l.kind
    case StringValue => QuotedText(if style.Quoted? then style.quote else '"', l.value)
    case RegexValue => "/" + (l.value + "/")
    case TermValue =>
      if style.Mixed? && style.head <= |l.value|
      then l.value[..style.head] + QuotedText(style.quote, l.value[style.head..])
      else l.value
    case _ => l.value
  }

  predicate IsSign(l: Lexeme) {
    match l.kind
    case LeftParen => l.value == "("
    case RightParen => l.value == ")"
    case LeftBracket => l.value == "["
    case RightBracket => l.value == "]"
    case CommaSign => l.value == ","
    case AndWord => l.value == "&&"
    case OrWord => l.value == "||"
    case NotWord => l.value == "!" || l.value == "~"
    case OperatorSign => l.value in {"=", "!=", "<", "<=", ">", ">="}
    case _ => false
  }

  /** A word in any mixture of cases. */
  predicate IsWord(l: Lexeme) {
    match l.kind
    case AndWord => AsciiLower(l.value) == "and"
    case OrWord => AsciiLower(l.value) == "or"
    case NotWord => AsciiLower(l.value) == "not"
    case InWord => AsciiLower(l.value) == "in"
    case _ => false
  }

  predicate IsAnyWord(value: string) {
    AsciiLower(value) in {"and", "or", "not", "in"}
  }

  /** A value that a term can have: it starts plainly, is no word, and a colon in it stands between characters. */
  predicate IsTermValue(value: string) {
    && value != "" && IsPlain(value[0]) && value[0] != '/' && !IsAnyWord(value)
    && IndexOf(value, ':') != 0 && IndexOf(value, ':') != |value| - 1
  }

  predicate IsRegexValue(value: string, validRegex: string -> bool) {
    IsRegexBody(value) && (value != "" ==> value[0] != '*') && validRegex(value)
  }

  /** The token can be written, and written in this style. */
  predicate Fits(l: Lexeme, style: Style, validRegex: string -> bool) {
    match l.kind
    case StringValue => style.Quoted? && IsQuote(style.quote)
    case RegexValue => IsRegexValue(l.value, validRegex)
    case TermValue =>
      && IsTermValue(l.value)
      && (match style
          case Plain => IsPlainText(l.value)
          case Mixed(head, q) => 0 < head <= |l.value| && IsPlainText(l.value[..head]) && IsQuote(q)
          case Quoted(_) => false)
    case _ => IsSign(l) || IsWord(l)
  }

  /** What follows does not continue the token. */
  predicate Ends(l: Lexeme, rest: string) {
    if l.kind == TermValue || IsWord(l) then StopsHere(rest)
    else if l.kind == RegexValue then rest == "" || !IsLetter(rest[0])
    else if l.value == "!" || l.value == "<" || l.value == ">" then l.kind == StringValue || rest == "" || rest[0] != '='
    else true
  }

  function TextOf(items: seq<Spelled>): string {
    if items == [] then ""
    else Written(items[0].lexeme, items[0].style) + (Concat(items[0].gap) + TextOf(items[1..]))
  }

  function LexemesOf(items: seq<Spelled>): seq<Lexeme> {
    seq(|items|, i requires 0 <= i < |items| => items[i].lexeme)
  }

  /** Every token is written legally and ends before what follows it. */
  predicate WellSpelled(items: seq<Spelled>, validRegex: string -> bool) {
    items == [] ||
    (&& Fits(items[0].lexeme, items[0].style, validRegex) && IsGap(items[0].gap)
     && Ends(items[0].lexeme, Concat(items[0].gap) + TextOf(items[1..]))
     && WellSpelled(items[1..], validRegex))
  }

  // ---- each token is read ------------------------------------------------------------------------------------------------

  ghost predicate Emits(input: string, i: nat, l: Lexeme, end: nat, validRegex: string -> bool) {
    && i < end <= |input|
    && var step := NextStep(input, i, validRegex); step.Emit? && step.token.lexeme == l && step.token.end == end
  }

  lemma PlainStartsTerm(input: string, i: nat, validRegex: string -> bool)
    requires i < |input| && IsPlain(input[i]) && input[i] != '/'
    ensures NextStep(input, i, validRegex) == TermStep(input, i)
  {
    assert SimpleKind(input[i]).None?;
  }

  lemma TermStopsHere(input: string, end: nat)
    requires end <= |input| && StopsHere(input[end..])
    ensures ScanTerm(input, end, None, false) == Extent(end, true, "") && (end < |input| ==> input[end] != '*')
  {
    if end < |input| {
      var rest := input[end..];
      assert input[end] == rest[0];
      assert |rest| > 1 ==> input[end + 1] == rest[1];
      StarIsPlain();
      assert StopsTerm(input, end);
    }
  }

  lemma StarIsPlain()
    ensures !IsTermDelimiter('*')
  {
  }

  /** Plain text up to a stop is one term. */
  lemma ReadsPlainTerm(input: string, i: nat, value: string)
    requires At(input, i, value) && IsPlainText(value) && StopsHere(input[i + |value|..])
    ensures ScanTerm(input, i, None, false) == Extent(i + |value|, true, value)
  {
    TermStopsHere(input, i + |value|);
    ScanPlainText(input, i, value);
    assert value + "" == value;
  }

  lemma ReadsMixedTerm(input: string, i: nat, head: string, q: char, tail: string)
    requires IsQuote(q) && IsPlainText(head) && At(input, i, head + QuotedText(q, tail))
    requires StopsHere(input[i + |head + QuotedText(q, tail)|..])
    ensures ScanTerm(input, i, None, false) == Extent(i + |head + QuotedText(q, tail)|, true, head + tail)
  {
    var k, end := i + |head|, i + |head + QuotedText(q, tail)|;
    SplitAt(input, i, head, QuotedText(q, tail));
    ReadsQuotedTail(input, k, q, tail, end);
    ScanPlainText(input, i, head);
  }

  lemma ReadsQuotedTail(input: string, k: nat, q: char, tail: string, end: nat)
    requires IsQuote(q) && At(input, k, QuotedText(q, tail)) && end == k + |QuotedText(q, tail)| && StopsHere(input[end..])
    ensures k < |input| && input[k] == q && ScanTerm(input, k, None, false) == Extent(end, true, tail)
  {
    SplitAt(input, k, [q], Escape(q, tail) + [q]);
    CharsAt(input, k, [q]);
    assert input[k + 0] == q;
    TermStopsHere(input, end);
    ScanTermQuoted(input, k + 1, q, tail, end);
    OpensQuote(input, k, q);
    assert tail + "" == tail;
  }

  lemma OpensQuote(input: string, k: nat, q: char)
    requires IsQuote(q) && k < |input| && input[k] == q
    ensures ScanTerm(input, k, None, false) == ScanTerm(input, k + 1, Some(q), false)
  {
  }

  lemma NoKeyword(value: string)
    requires !IsAnyWord(value)
    ensures Keyword(value).None?
  {
  }

  lemma TermEmits(input: string, i: nat, value: string, end: nat, validRegex: string -> bool)
    requires IsTermValue(value) && i < end <= |input| && input[i] == value[0]
    requires ScanTerm(input, i, None, false) == Extent(end, true, value)
    ensures Emits(input, i, Lexeme(TermValue, value), end, validRegex)
  {
    PlainStartsTerm(input, i, validRegex);
    NoKeyword(value);
  }

  lemma WordIsKeyword(l: Lexeme)
    requires IsWord(l)
    ensures Keyword(l.value) == Some(l.kind) && IsPlainText(l.value) && l.value != "" && l.value[0] != '/'
  {
    var lower := AsciiLower(l.value);
    forall i | 0 <= i < |l.value|
      ensures IsPlain(l.value[i]) && l.value[i] != '/'
    {
      assert lower[i] == LowerChar(l.value[i]);
      assert 'a' <= lower[i] <= 'z';
      LetterIsPlain(l.value[i]);
    }
  }

  lemma LetterIsPlain(c: char)
    requires IsLetter(c)
    ensures IsPlain(c) && c != '/'
  {
  }

  lemma WordEmits(input: string, i: nat, l: Lexeme, validRegex: string -> bool)
    requires IsWord(l) && At(input, i, l.value) && StopsHere(input[i + |l.value|..])
    ensures Emits(input, i, l, i + |l.value|, validRegex)
  {
    WordIsKeyword(l);
    CharsAt(input, i, l.value);
    assert input[i + 0] == l.value[0] && IsPlain(l.value[0]);
    PlainStartsTerm(input, i, validRegex);
    ReadsPlainTerm(input, i, l.value);
  }

  lemma PunctuationEmits(input: string, i: nat, l: Lexeme, validRegex: string -> bool)
    requires IsSign(l) && i < |input| && |l.value| == 1 && input[i] == l.value[0] && SimpleKind(input[i]) == Some(l.kind)
    ensures Emits(input, i, l, i + 1, validRegex)
  {
    assert input[i..i + 1] == l.value;
  }

  lemma BooleanSignEmits(input: string, i: nat, l: Lexeme, validRegex: string -> bool)
    requires IsSign(l) && l.kind in {AndWord, OrWord, NotWord} && At(input, i, l.value) && Ends(l, input[i + |l.value|..])
    ensures Emits(input, i, l, i + |l.value|, validRegex)
  {
    CharsAt(input, i, l.value);
    var end := i + |l.value|;
    assert input[i + 0] == l.value[0];
    assert |l.value| == 2 ==> input[i + 1] == l.value[1];
    assert end < |input| ==> input[end] == input[end..][0];
  }

  lemma OperatorEmits(input: string, i: nat, l: Lexeme, validRegex: string -> bool)
    requires IsSign(l) && l.kind == OperatorSign && At(input, i, l.value) && Ends(l, input[i + |l.value|..])
    ensures Emits(input, i, l, i + |l.value|, validRegex)
  {
    CharsAt(input, i, l.value);
    var end := i + |l.value|;
    assert input[i + 0] == l.value[0];
    assert |l.value| == 2 ==> input[i + 1] == l.value[1];
    assert end < |input| ==> input[end] == input[end..][0];
  }

  lemma SignEmits(input: string, i: nat, l: Lexeme, validRegex: string -> bool)
    requires IsSign(l) && At(input, i, l.value) && Ends(l, input[i + |l.value|..])
    ensures Emits(input, i, l, i + |l.value|, validRegex)
  {
    if l.kind == OperatorSign {
      OperatorEmits(input, i, l, validRegex);
    } else if l.kind in {AndWord, OrWord, NotWord} {
      BooleanSignEmits(input, i, l, validRegex);
    } else {
      CharsAt(input, i, l.value);
      assert input[i + 0] == l.value[0];
      PunctuationEmits(input, i, l, validRegex);
    }
  }

  lemma ReadsString(input: string, i: nat, value: string, q: char, end: nat)
    requires IsQuote(q) && At(input, i, QuotedText(q, value)) && end == i + |QuotedText(q, value)|
    ensures i < end <= |input| && input[i] == q && ScanQuoted(input, i + 1, q, false) == Extent(end, true, value)
  {
    SplitAt(input, i, [q], Escape(q, value) + [q]);
    CharsAt(input, i, [q]);
    assert input[i + 0] == q;
    ScanQuotedValue(input, i + 1, q, value, end);
    assert value + "" == value;
  }

  lemma StringEmits(input: string, i: nat, value: string, q: char, end: nat, validRegex: string -> bool)
    requires IsQuote(q) && i < end <= |input| && input[i] == q && ScanQuoted(input, i + 1, q, false) == Extent(end, true, value)
    ensures Emits(input, i, Lexeme(StringValue, value), end, validRegex)
  {
  }

  lemma ReadsRegex(input: string, i: nat, value: string)
    requires IsRegexBody(value) && At(input, i, "/" + (value + "/"))
    ensures i + |value| + 2 <= |input| && input[i] == '/' && input[i + 1] == (if value == "" then '/' else value[0])
    ensures ScanRegex(input, i + 1, false) == Extent(i + |value| + 2, true, value)
  {
    SplitAt(input, i, "/", value + "/");
    CharsAt(input, i, "/");
    assert input[i + 0] == '/';
    CharsAt(input, i + 1, value + "/");
    assert input[i + 1 + 0] == (value + "/")[0];
    ScanRegexBody(input, i + 1, value);
  }

  lemma RegexEmits(input: string, i: nat, value: string, end: nat, validRegex: string -> bool)
    requires validRegex(value) && i + 1 < end <= |input| && input[i] == '/' && input[i + 1] != '*'
    requires ScanRegex(input, i + 1, false) == Extent(end, true, value) && (end == |input| || !IsLetter(input[end]))
    ensures Emits(input, i, Lexeme(RegexValue, value), end, validRegex)
  {
  }

  lemma TermTextEmits(input: string, i: nat, value: string, style: Style, validRegex: string -> bool)
    requires var l := Lexeme(TermValue, value);
             && Fits(l, style, validRegex) && At(input, i, Written(l, style)) && StopsHere(input[i + |Written(l, style)|..])
    ensures var l := Lexeme(TermValue, value); Emits(input, i, l, i + |Written(l, style)|, validRegex)
  {
    var text := Written(Lexeme(TermValue, value), style);
    if style.Plain? {
      ReadsPlainTerm(input, i, value);
    } else {
      ReadsMixedTerm(input, i, value[..style.head], style.quote, value[style.head..]);
      assert value[..style.head] + value[style.head..] == value;
    }
    CharsAt(input, i, text);
    assert input[i + 0] == text[0] == value[0];
    TermEmits(input, i, value, i + |text|, validRegex);
  }

  /** A token that is written legally, and ends before what follows, is read as this token. */
  lemma ItemEmits(input: string, i: nat, l: Lexeme, style: Style, validRegex: string -> bool)
    requires Fits(l, style, validRegex) && At(input, i, Written(l, style)) && Ends(l, input[i + |Written(l, style)|..])
    ensures Emits(input, i, l, i + |Written(l, style)|, validRegex)
  {
    if l.kind == StringValue {
      var end := i + |Written(l, style)|;
      ReadsString(input, i, l.value, style.quote, end);
      StringEmits(input, i, l.value, style.quote, end, validRegex);
    } else if l.kind == RegexValue {
      var end := i + |l.value| + 2;
      assert end < |input| ==> input[end] == input[end..][0];
      ReadsRegex(input, i, l.value);
      RegexEmits(input, i, l.value, end, validRegex);
    } else if l.kind == TermValue {
      TermTextEmits(input, i, l.value, style, validRegex);
    } else if IsWord(l) {
      WordEmits(input, i, l, validRegex);
    } else {
      SignEmits(input, i, l, validRegex);
    }
  }

  // ---- the whole text is read ----------------------------------------------------------------------------------------------

  /** A scan of these lexemes, and nothing else. */
  predicate Reads(scan: Scan, lexemes: seq<Lexeme>) {
    scan.error == None && Lexemes(scan.tokens) == lexemes
  }

  ghost predicate ReadsFirst(from: nat -> Scan, i: nat, l: Lexeme, end: nat) {
    exists token: Token :: token.lexeme == l && from(i) == Before([token], from(end))
  }

  lemma FirstThenRest(from: nat -> Scan, i: nat, l: Lexeme, end: nat, rest: seq<Lexeme>)
    requires ReadsFirst(from, i, l, end) && Reads(from(end), rest)
    ensures Reads(from(i), [l] + rest)
  {
  }

  lemma EmittedFirst(input: string, i: nat, l: Lexeme, end: nat, validRegex: string -> bool)
    requires Emits(input, i, l, end, validRegex)
    ensures ReadsFirst(Reader(input, validRegex), i, l, end)
  {
    var token := NextStep(input, i, validRegex).token;
    assert Reader(input, validRegex)(i) == Before([token], Reader(input, validRegex)(end));
  }

  lemma SplitRest(input: string, i: nat, a: string, b: string)
    requires i <= |input| && input[i..] == a + b
    ensures At(input, i, a) && i + |a| <= |input| && input[i + |a|..] == b
  {
    assert input[i..][..|a|] == a && input[i..][|a|..] == b;
  }

  /** Where a written token, the gap behind it and the rest of the text lie. */
  lemma SpelledParts(input: string, i: nat, text: string, gap: string, more: string)
    requires i <= |input| && input[i..] == text + (gap + more)
    ensures At(input, i, text) && input[i + |text|..] == gap + more
    ensures At(input, i + |text|, gap) && i + |text| + |gap| <= |input| && input[i + |text| + |gap|..] == more
  {
    SplitRest(input, i, text, gap + more);
    SplitRest(input, i + |text|, gap, more);
  }

  ghost predicate TakesItems(input: string, takes: (nat, seq<Lexeme>) -> bool, validRegex: string -> bool) {
    forall i: nat, l, style, rest |
      Fits(l, style, validRegex) && At(input, i, Written(l, style)) && Ends(l, input[i + |Written(l, style)|..])
      && takes(i + |Written(l, style)|, rest) :: takes(i, [l] + rest)
  }

  ghost predicate TakesBlanks(input: string, takes: (nat, seq<Lexeme>) -> bool) {
    forall i: nat, c, rest | At(input, i, c) && IsBlankPiece(c) && takes(i + |c|, rest) :: takes(i, rest)
  }

  lemma SplitGap(input: string, i: nat, gap: seq<string>)
    requires gap != [] && IsGap(gap) && At(input, i, Concat(gap))
    ensures IsBlankPiece(gap[0]) && At(input, i, gap[0]) && At(input, i + |gap[0]|, Concat(gap[1..]))
    ensures IsGap(gap[1..]) && |Concat(gap)| == |gap[0]| + |Concat(gap[1..])|
  {
    SplitAt(input, i, gap[0], Concat(gap[1..]));
  }

  lemma {:induction false} TakesGap(input: string, i: nat, gap: seq<string>, end: nat, rest: seq<Lexeme>, takes: (nat, seq<Lexeme>) -> bool)
    requires TakesBlanks(input, takes) && IsGap(gap) && At(input, i, Concat(gap)) && end == i + |Concat(gap)| && takes(end, rest)
    ensures takes(i, rest)
    decreases |gap|
  {
    if gap != [] {
      SplitGap(input, i, gap);
      TakesGap(input, i + |gap[0]|, gap[1..], end, rest, takes);
    }
  }

  lemma TakesItem(input: string, i: nat, l: Lexeme, style: Style, k: nat, rest: seq<Lexeme>,
                  takes: (nat, seq<Lexeme>) -> bool, validRegex: string -> bool)
    requires TakesItems(input, takes, validRegex) && Fits(l, style, validRegex)
    requires At(input, i, Written(l, style)) && k == i + |Written(l, style)| && Ends(l, input[k..]) && takes(k, rest)
    ensures takes(i, [l] + rest)
  {
  }

  lemma TakesSpelled(input: string, i: nat, item: Spelled, end: nat, rest: seq<Lexeme>,
                     takes: (nat, seq<Lexeme>) -> bool, validRegex: string -> bool)
    requires TakesItems(input, takes, validRegex) && TakesBlanks(input, takes)
    requires Fits(item.lexeme, item.style, validRegex) && IsGap(item.gap)
    requires var k := i + |Written(item.lexeme, item.style)|;
             && At(input, i, Written(item.lexeme, item.style)) && At(input, k, Concat(item.gap))
             && end == k + |Concat(item.gap)| && Ends(item.lexeme, input[k..])
    requires takes(end, rest)
    ensures takes(i, [item.lexeme] + rest)
  {
    var k := i + |Written(item.lexeme, item.style)|;
    TakesGap(input, k, item.gap, end, rest, takes);
    TakesItem(input, i, item.lexeme, item.style, k, rest, takes, validRegex);
  }

  lemma HeadSpelled(items: seq<Spelled>, validRegex: string -> bool)
    requires items != [] && WellSpelled(items, validRegex)
    ensures var item, more := items[0], TextOf(items[1..]);
            && Fits(item.lexeme, item.style, validRegex) && IsGap(item.gap) && Ends(item.lexeme, Concat(item.gap) + more)
            && TextOf(items) == Written(item.lexeme, item.style) + (Concat(item.gap) + more)
    ensures WellSpelled(items[1..], validRegex)
  {
  }

  lemma TakesNext(input: string, i: nat, item: Spelled, more: string, end: nat, rest: seq<Lexeme>,
                  takes: (nat, seq<Lexeme>) -> bool, validRegex: string -> bool)
    requires TakesItems(input, takes, validRegex) && TakesBlanks(input, takes) && takes(end, rest)
    requires Fits(item.lexeme, item.style, validRegex) && IsGap(item.gap) && Ends(item.lexeme, Concat(item.gap) + more)
    requires i <= |input| && input[i..] == Written(item.lexeme, item.style) + (Concat(item.gap) + more)
    requires end == i + |Written(item.lexeme, item.style)| + |Concat(item.gap)|
    ensures takes(i, [item.lexeme] + rest)
  {
    SpelledParts(input, i, Written(item.lexeme, item.style), Concat(item.gap), more);
    TakesSpelled(input, i, item, end, rest, takes, validRegex);
  }

  function ItemEnd(i: nat, item: Spelled): nat {
    i + |Written(item.lexeme, item.style)| + |Concat(item.gap)|
  }

  lemma TailLies(input: string, i: nat, items: seq<Spelled>)
    requires items != [] && i <= |input| && input[i..] == TextOf(items)
    ensures ItemEnd(i, items[0]) <= |input| && input[ItemEnd(i, items[0])..] == TextOf(items[1..])
  {
    HeadText(items);
    SpelledParts(input, i, Written(items[0].lexeme, items[0].style), Concat(items[0].gap), TextOf(items[1..]));
  }

  lemma TextCons(item: Spelled, items: seq<Spelled>)
    ensures TextOf([item] + items) == Written(item.lexeme, item.style) + (Concat(item.gap) + TextOf(items))
  {
    assert ([item] + items)[1..] == items;
  }

  lemma SpelledCons(item: Spelled, items: seq<Spelled>, validRegex: string -> bool)
    requires WellSpelled(items, validRegex) && Fits(item.lexeme, item.style, validRegex) && IsGap(item.gap)
    requires Ends(item.lexeme, Concat(item.gap) + TextOf(items))
    ensures WellSpelled([item] + items, validRegex) && LexemesOf([item] + items) == [item.lexeme] + LexemesOf(items)
  {
    assert ([item] + items)[1..] == items;
  }

  lemma HeadText(items: seq<Spelled>)
    requires items != []
    ensures TextOf(items) == Written(items[0].lexeme, items[0].style) + (Concat(items[0].gap) + TextOf(items[1..]))
  {
  }

  lemma TakesFirst(input: string, i: nat, items: seq<Spelled>, takes: (nat, seq<Lexeme>) -> bool, validRegex: string -> bool)
    requires items != [] && i <= |input| && input[i..] == TextOf(items) && WellSpelled(items, validRegex)
    requires TakesItems(input, takes, validRegex) && TakesBlanks(input, takes)
    requires takes(ItemEnd(i, items[0]), LexemesOf(items[1..]))
    ensures takes(i, LexemesOf(items))
  {
    HeadSpelled(items, validRegex);
    LexemesHead(items);
    TakesNext(input, i, items[0], TextOf(items[1..]), ItemEnd(i, items[0]), LexemesOf(items[1..]), takes, validRegex);
  }

  lemma {:induction false} TakesAll(input: string, i: nat, items: seq<Spelled>, takes: (nat, seq<Lexeme>) -> bool, validRegex: string -> bool)
    requires i <= |input| && input[i..] == TextOf(items) && WellSpelled(items, validRegex)
    requires takes(|input|, []) && TakesItems(input, takes, validRegex) && TakesBlanks(input, takes)
    ensures takes(i, LexemesOf(items))
    decreases |items|
  {
    if items == [] {
      assert i == |input| && LexemesOf(items) == [];
    } else {
      HeadSpelled(items, validRegex);
      TailLies(input, i, items);
      TakesAll(input, ItemEnd(i, items[0]), items[1..], takes, validRegex);
      TakesFirst(input, i, items, takes, validRegex);
    }
  }

  lemma LexemesHead(items: seq<Spelled>)
    requires items != []
    ensures LexemesOf(items) == [items[0].lexeme] + LexemesOf(items[1..])
  {
  }

  /** A reader as a taker of lexemes. */
  ghost function Taker(from: nat -> Scan): (nat, seq<Lexeme>) -> bool {
    (k: nat, rest: seq<Lexeme>) => Reads(from(k), rest)
  }

  ghost predicate SkipsBlanks(input: string, from: nat -> Scan) {
    forall i: nat, c | At(input, i, c) && IsBlankPiece(c) :: from(i) == from(i + |c|)
  }

  ghost predicate ReadsItems(input: string, from: nat -> Scan, validRegex: string -> bool) {
    forall i: nat, l, style |
      Fits(l, style, validRegex) && At(input, i, Written(l, style)) && Ends(l, input[i + |Written(l, style)|..])
      :: ReadsFirst(from, i, l, i + |Written(l, style)|)
  }

  lemma ReaderSkipsBlanks(input: string, validRegex: string -> bool)
    ensures SkipsBlanks(input, Reader(input, validRegex))
  {
    var from := Reader(input, validRegex);
    forall i: nat, c | At(input, i, c) && IsBlankPiece(c)
      ensures from(i) == from(i + |c|)
    {
      BlankSkips(input, i, c, validRegex);
      assert SameFrom(input, i, i + |c|, validRegex);
    }
  }

  lemma ReaderReadsItems(input: string, validRegex: string -> bool)
    ensures ReadsItems(input, Reader(input, validRegex), validRegex)
  {
    forall i: nat, l, style |
      Fits(l, style, validRegex) && At(input, i, Written(l, style)) && Ends(l, input[i + |Written(l, style)|..])
      ensures ReadsFirst(Reader(input, validRegex), i, l, i + |Written(l, style)|)
    {
      ItemEmits(input, i, l, style, validRegex);
      EmittedFirst(input, i, l, i + |Written(l, style)|, validRegex);
    }
  }

  lemma TakerTakes(input: string, from: nat -> Scan, validRegex: string -> bool)
    requires SkipsBlanks(input, from) && ReadsItems(input, from, validRegex)
    ensures TakesBlanks(input, Taker(from)) && TakesItems(input, Taker(from), validRegex)
  {
    forall i: nat, l, style, rest |
      Fits(l, style, validRegex) && At(input, i, Written(l, style)) && Ends(l, input[i + |Written(l, style)|..])
      && Taker(from)(i + |Written(l, style)|, rest)
      ensures Taker(from)(i, [l] + rest)
    {
      FirstThenRest(from, i, l, i + |Written(l, style)|, rest);
    }
  }

  lemma TakesEverything(input: string, lead: seq<string>, items: seq<Spelled>, takes: (nat, seq<Lexeme>) -> bool, validRegex: string -> bool)
    requires IsGap(lead) && WellSpelled(items, validRegex)
    requires At(input, 0, Concat(lead)) && input[|Concat(lead)|..] == TextOf(items)
    requires takes(|input|, []) && TakesItems(input, takes, validRegex) && TakesBlanks(input, takes)
    ensures takes(0, LexemesOf(items))
  {
    TakesAll(input, |Concat(lead)|, items, takes, validRegex);
    TakesGap(input, 0, lead, |Concat(lead)|, LexemesOf(items), takes);
  }

  lemma ReadsEverything(input: string, lead: seq<string>, items: seq<Spelled>, from: nat -> Scan, validRegex: string -> bool)
    requires IsGap(lead) && WellSpelled(items, validRegex) && input == Concat(lead) + TextOf(items)
    requires SkipsBlanks(input, from) && ReadsItems(input, from, validRegex) && Reads(from(|input|), [])
    ensures Reads(from(0), LexemesOf(items))
  {
    assert input[0..] == input;
    SplitRest(input, 0, Concat(lead), TextOf(items));
    TakerTakes(input, from, validRegex);
    TakesEverything(input, lead, items, Taker(from), validRegex);
  }

  lemma ReaderEnds(input: string, validRegex: string -> bool)
    ensures Reads(Reader(input, validRegex)(|input|), [])
  {
  }

  /** Whatever is written legally, with any white space and comments in front and between, is read as its tokens. */
  lemma SpelledReads(lead: seq<string>, items: seq<Spelled>, validRegex: string -> bool)
    requires IsGap(lead) && WellSpelled(items, validRegex)
    ensures Reads(Tokenize(Concat(lead) + TextOf(items), 0, false, validRegex), LexemesOf(items))
  {
    var input := Concat(lead) + TextOf(items);
    ReaderSkipsBlanks(input, validRegex);
    ReaderReadsItems(input, validRegex);
    ReaderEnds(input, validRegex);
    ReadsEverything(input, lead, items, Reader(input, validRegex), validRegex);
  }
}
