/**
 Search expressions as text (frontend/src/searchExpression.ts): every expression that can be read
 from some text is read back from its printed text, whatever the spelling of the words, the quotes,
 the white space and the comments; and which expressions can be read at all.
 */
module TextPrinting {
  import opened Options
  import opened Texts
  import opened Tokenizer
  import opened Expressions
  import opened Parsing
  import opened Grammar
  import opened Printing
  import opened Evaluation
  import opened Spelling

  // ---- reading written expressions ------------------------------------------------------------------------------

  /** However the tokens of a printed expression are written, the text reads back as the expression. */
  lemma TextReadsBack(lead: seq<string>, items: seq<Spelled>, e: Expr, w: Words, syntax: Syntax)
    requires Printable(e) && !AnyRuleError(syntax, e)
    requires IsGap(lead) && WellSpelled(items, syntax.validRegex) && LexemesOf(items) == Print(e, w)
    ensures ParseSearchExpression(Concat(lead) + TextOf(items), syntax) == Search(Some(e))
  {
    var scan := Tokenize(Concat(lead) + TextOf(items), 0, false, syntax.validRegex);
    SpelledReads(lead, items, syntax.validRegex);
    PrintDerives(e, w);
    PrimaryIsAny(Print(e, w), e);
    ParserMatchesGrammar(Print(e, w), e);
    assert |scan.tokens| == |Print(e, w)|;
  }

  // ---- a printer of text ---------------------------------------------------------------------------------------------

  const WORDS := Words("and", "or", "not", "in")

  /** Plain where possible; otherwise quotes, in a term behind its first character. */
  function StyleOf(l: Lexeme): Style {
    if l.kind == StringValue then Quoted('"')
    else if l.kind == TermValue && !IsPlainText(l.value) then Mixed(1, '"')
    else Plain
  }

  function Spell(l: Lexeme): Spelled {
    Spelled(l, StyleOf(l), [" "])
  }

  function SpellAll(ls: seq<Lexeme>): seq<Spelled> {
    if ls == [] then [] else [Spell(ls[0])] + SpellAll(ls[1..])
  }

  function PrintText(e: Expr): string
    requires Printable(e)
  {
    TextOf(SpellAll(Print(e, WORDS)))
  }

  /** The token can be written in some style. */
  predicate CanWrite(l: Lexeme, validRegex: string -> bool) {
    match l.kind
    case StringValue => true
    case RegexValue => IsRegexValue(l.value, validRegex)
    case TermValue => IsTermValue(l.value)
    case _ => IsSign(l) || IsWord(l)
  }

  lemma SpellFits(l: Lexeme, validRegex: string -> bool)
    requires CanWrite(l, validRegex)
    ensures Fits(l, StyleOf(l), validRegex)
  {
    if l.kind == TermValue && !IsPlainText(l.value) {
      assert l.value[..1] == [l.value[0]];
    }
  }

  lemma EndsAtSpace(l: Lexeme, more: string)
    ensures Ends(l, " " + more)
  {
    assert (" " + more)[0] == ' ';
  }

  lemma SpaceGap()
    ensures IsGap([" "]) && Concat([" "]) == " "
  {
    assert Concat([" "]) == " " + Concat([]);
  }

  ghost predicate AllCanWrite(ls: seq<Lexeme>, validRegex: string -> bool) {
    forall i | 0 <= i < |ls| :: CanWrite(ls[i], validRegex)
  }

  lemma {:induction false} SpellAllIsWell(ls: seq<Lexeme>, validRegex: string -> bool)
    requires AllCanWrite(ls, validRegex)
    ensures WellSpelled(SpellAll(ls), validRegex) && LexemesOf(SpellAll(ls)) == ls
  {
    if ls != [] {
      SpellAllIsWell(ls[1..], validRegex);
      SpellFits(ls[0], validRegex);
      SpaceGap();
      EndsAtSpace(ls[0], TextOf(SpellAll(ls[1..])));
      SpelledCons(Spell(ls[0]), SpellAll(ls[1..]), validRegex);
      assert ls == [ls[0]] + ls[1..];
    }
  }

  predicate WritableValue(v: ListValue, validRegex: string -> bool) {
    v.Pattern? ==> IsRegexValue(v.value, validRegex)
  }

  predicate WritablePredicate(p: Predicate, validRegex: string -> bool) {
    match p
    case Bare(value) => IsTermValue(value)
    case Event(value) => IsTermValue(value)
    case Untagged => true
    case Comparison(field, _, _) => IsTermValue(field)
    case Membership(field, _, values) =>
      IsTermValue(field) && forall i | 0 <= i < |values| :: WritableValue(values[i], validRegex)
  }

  /** Its terms and regular expressions can be written. */
  predicate Writable(e: Expr, validRegex: string -> bool) {
    match e
    case Pred(p) => WritablePredicate(p, validRegex)
    case Not(x) => Writable(x, validRegex)
    case And(l, r) => Writable(l, validRegex) && Writable(r, validRegex)
    case Or(l, r) => Writable(l, validRegex) && Writable(r, validRegex)
  }

  lemma WordsCanBeWritten(validRegex: string -> bool)
    ensures CanWrite(Lexeme(AndWord, "and"), validRegex) && CanWrite(Lexeme(OrWord, "or"), validRegex)
    ensures CanWrite(Lexeme(NotWord, "not"), validRegex) && CanWrite(Lexeme(InWord, "in"), validRegex)
  {
    LowerCaseIsFixed("and");
    LowerCaseIsFixed("or");
    LowerCaseIsFixed("not");
    LowerCaseIsFixed("in");
  }

  lemma ConcatCanWrite(a: seq<Lexeme>, b: seq<Lexeme>, validRegex: string -> bool)
    requires AllCanWrite(a, validRegex) && AllCanWrite(b, validRegex)
    ensures AllCanWrite(a + b, validRegex)
  {
  }

  lemma {:induction false} ItemsCanWrite(values: seq<ListValue>, validRegex: string -> bool)
    requires values != [] && forall i | 0 <= i < |values| :: WritableValue(values[i], validRegex)
    ensures AllCanWrite(PrintItems(values), validRegex)
  {
    assert WritableValue(values[0], validRegex);
    if |values| > 1 {
      ItemsCanWrite(values[1..], validRegex);
    }
  }

  lemma UntaggedIsTerm()
    ensures IsTermValue("untagged")
  {
    LowerCaseIsFixed("untagged");
    LetterIsPlain('u');
    NoColon("untagged");
  }

  lemma {:induction false} NoColon(value: string)
    requires forall i | 0 <= i < |value| :: value[i] != ':'
    ensures IndexOf(value, ':') == -1
  {
    if value != "" {
      NoColon(value[1..]);
    }
  }

  lemma PredicateCanWrite(p: Predicate, validRegex: string -> bool)
    requires Expressible(p) && WritablePredicate(p, validRegex)
    ensures AllCanWrite(PrintPredicate(p, WORDS), validRegex)
  {
    match p
    case Bare(_) =>
    case Event(_) =>
    case Untagged => UntaggedIsTerm();
    case Comparison(_, _, _) =>
    case Membership(field, negated, values) =>
      WordsCanBeWritten(validRegex);
      ItemsCanWrite(values, validRegex);
      var front := [Lexeme(TermValue, field)] + (if negated then [Lexeme(NotWord, "not")] else []) +
                   [Lexeme(InWord, "in"), Lexeme(LeftBracket, "[")];
      ConcatCanWrite(front, PrintItems(values), validRegex);
  }

  lemma EnclosedCanWrite(ts: seq<Lexeme>, validRegex: string -> bool)
    requires AllCanWrite(ts, validRegex)
    ensures AllCanWrite(Enclosed(ts), validRegex)
  {
  }

  lemma {:induction false} PrintCanWrite(e: Expr, validRegex: string -> bool)
    requires Printable(e) && Writable(e, validRegex)
    ensures AllCanWrite(Print(e, WORDS), validRegex)
  {
    WordsCanBeWritten(validRegex);
    match e
    case Pred(p) => PredicateCanWrite(p, validRegex);
    case Not(x) =>
      PrintCanWrite(x, validRegex);
      EnclosedCanWrite([Lexeme(NotWord, "not")] + Print(x, WORDS), validRegex);
    case And(l, r) =>
      PrintCanWrite(l, validRegex);
      PrintCanWrite(r, validRegex);
      EnclosedCanWrite(Print(l, WORDS) + [Lexeme(AndWord, "and")] + Print(r, WORDS), validRegex);
    case Or(l, r) =>
      PrintCanWrite(l, validRegex);
      PrintCanWrite(r, validRegex);
      EnclosedCanWrite(Print(l, WORDS) + [Lexeme(OrWord, "or")] + Print(r, WORDS), validRegex);
  }

  /** The printed text of an expression reads back as the expression. */
  lemma PrintTextReadsBack(e: Expr, syntax: Syntax)
    requires Printable(e) && Writable(e, syntax.validRegex) && !AnyRuleError(syntax, e)
    ensures ParseSearchExpression(PrintText(e), syntax) == Search(Some(e))
  {
    PrintCanWrite(e, syntax.validRegex);
    SpellAllIsWell(Print(e, WORDS), syntax.validRegex);
    TextReadsBack([], SpellAll(Print(e, WORDS)), e, WORDS, syntax);
    assert Concat([]) + PrintText(e) == PrintText(e);
  }

  // ---- what can be read can be written -----------------------------------------------------------------------------------

  predicate NoQuotes(raw: string) {
    forall i | 0 <= i < |raw| :: !IsQuote(raw[i])
  }

  predicate IsWordText(t: Token) {
    t.raw != "" && IsPlain(t.raw[0]) && (NoQuotes(t.raw) ==> IsWord(t.lexeme))
  }

  /** A token's own text is a legal spelling: a term or a word without quotes stands for itself, a string ends with
      the quote it starts with, a regular expression stands between slashes, and everything else is a sign. */
  predicate Legal(t: Token, validRegex: string -> bool) {
    match t.lexeme.kind
    case TermValue => IsTermValue(t.lexeme.value) && (NoQuotes(t.raw) ==> t.lexeme.value == t.raw)
    case RegexValue => IsRegexValue(t.lexeme.value, validRegex) && t.raw == "/" + (t.lexeme.value + "/")
    case StringValue => |t.raw| >= 2 && IsQuote(t.raw[0]) && t.raw[|t.raw| - 1] == t.raw[0]
    case CommentText => false
    case _ => t.lexeme.value == t.raw && (IsSign(t.lexeme) || IsWordText(t))
  }

  lemma {:induction false} RegexBodyRead(input: string, i: nat)
    requires i <= |input| && ScanRegex(input, i, false).closed
    ensures var r := ScanRegex(input, i, false);
            IsRegexBody(r.value) && i < r.end && input[i..r.end] == r.value + "/" && (r.value != "" ==> r.value[0] == input[i])
    decreases |input| - i
  {
    var r := ScanRegex(input, i, false);
    if input[i] == '\\' {
      assert r == ScanRegex(input, i + 1, true);
      assert i + 1 < |input|;
      RegexBodyRead(input, i + 2);
      var rest := ScanRegex(input, i + 2, false).value;
      assert r.value == ['\\', input[i + 1]] + rest;
      assert r.value[2..] == rest;
      assert input[i..r.end] == ['\\', input[i + 1]] + input[i + 2..r.end];
    } else if input[i] != '/' {
      RegexBodyRead(input, i + 1);
      var rest := ScanRegex(input, i + 1, false).value;
      assert r.value == [input[i]] + rest;
      assert r.value[1..] == rest;
      assert input[i..r.end] == [input[i]] + input[i + 1..r.end];
    } else {
      assert input[i..r.end] == "/";
    }
  }

  lemma RegexStepLegal(input: string, i: nat, validRegex: string -> bool)
    requires i < |input| && input[i] == '/' && !OpensBlockComment(input, i) && RegexStep(input, i, validRegex).Emit?
    ensures Legal(RegexStep(input, i, validRegex).token, validRegex)
  {
    var r := ScanRegex(input, i + 1, false);
    RegexBodyRead(input, i + 1);
    assert input[i..r.end] == "/" + input[i + 1..r.end];
  }

  lemma {:induction false} UnquotedTerm(input: string, i: nat)
    requires i <= |input|
    requires forall k | i <= k < ScanTerm(input, i, None, false).end :: !IsQuote(input[k])
    ensures var r := ScanTerm(input, i, None, false); r.value == input[i..r.end]
    decreases |input| - i
  {
    var r := ScanTerm(input, i, None, false);
    if i < |input| && !StopsTerm(input, i) {
      assert !IsQuote(input[i]);
      UnquotedTerm(input, i + 1);
      assert input[i..r.end] == [input[i]] + input[i + 1..r.end];
    }
  }

  lemma KeywordIsWord(value: string)
    requires Keyword(value).Some?
    ensures IsWord(Lexeme(Keyword(value).value, value))
  {
  }

  lemma TermStepLegal(input: string, i: nat, validRegex: string -> bool)
    requires i < |input| && IsPlain(input[i]) && input[i] != '/' && TermStep(input, i).Emit?
    ensures Legal(TermStep(input, i).token, validRegex)
  {
    var r := ScanTerm(input, i, None, false);
    var raw := input[i..r.end];
    assert r.value == [input[i]] + ScanTerm(input, i + 1, None, false).value;
    assert raw[0] == input[i];
    if NoQuotes(raw) {
      forall k | i <= k < r.end
        ensures !IsQuote(input[k])
      {
        assert raw[k - i] == input[k];
      }
      UnquotedTerm(input, i);
    }
    if Keyword(r.value).Some? {
      KeywordIsWord(r.value);
    } else {
      assert !IsAnyWord(r.value);
    }
  }

  lemma {:induction false} QuotedEnds(input: string, i: nat, quote: char, escaped: bool)
    requires i <= |input| && ScanQuoted(input, i, quote, escaped).closed
    ensures i < ScanQuoted(input, i, quote, escaped).end && input[ScanQuoted(input, i, quote, escaped).end - 1] == quote
    decreases |input| - i
  {
    if escaped {
      QuotedEnds(input, i + 1, quote, false);
    } else if input[i] == '\\' {
      QuotedEnds(input, i + 1, quote, true);
    } else if input[i] != quote {
      QuotedEnds(input, i + 1, quote, false);
    }
  }

  lemma StringStepLegal(input: string, i: nat, validRegex: string -> bool)
    requires i < |input| && IsQuote(input[i]) && StringStep(input, i).Emit?
    ensures Legal(StringStep(input, i).token, validRegex)
  {
    var r := ScanQuoted(input, i + 1, input[i], false);
    QuotedEnds(input, i + 1, input[i], false);
    var raw := input[i..r.end];
    assert raw[0] == input[i] && raw[|raw| - 1] == input[r.end - 1];
  }

  lemma TwoChars(input: string, i: nat)
    requires i + 2 <= |input|
    ensures input[i..i + 2] == [input[i], input[i + 1]] && input[i..i + 1] == [input[i]]
  {
  }

  predicate EmitsSign(step: Step) {
    step.Emit? ==> IsSign(step.token.lexeme) && step.token.raw == step.token.lexeme.value
  }

  lemma PunctuationStep(input: string, i: nat, validRegex: string -> bool)
    requires i < |input| && SimpleKind(input[i]).Some?
    ensures EmitsSign(NextStep(input, i, validRegex))
  {
    if i + 2 <= |input| {
      TwoChars(input, i);
    } else {
      assert input[i..i + 1] == [input[i]];
    }
  }

  lemma BooleanStep(input: string, i: nat, validRegex: string -> bool)
    requires i < |input| && (input[i] == '&' || input[i] == '|' || input[i] == '~')
    ensures EmitsSign(NextStep(input, i, validRegex))
  {
    if i + 2 <= |input| {
      TwoChars(input, i);
    } else {
      assert input[i..i + 1] == [input[i]];
    }
  }

  lemma OperatorStep(input: string, i: nat, validRegex: string -> bool)
    requires i < |input| && (input[i] == '!' || input[i] == '=' || input[i] == '<' || input[i] == '>')
    ensures EmitsSign(NextStep(input, i, validRegex))
  {
    if i + 2 <= |input| {
      TwoChars(input, i);
    } else {
      assert input[i..i + 1] == [input[i]];
    }
  }

  lemma SignStep(input: string, i: nat, validRegex: string -> bool)
    requires i < |input| && !IsSpace(input[i]) && IsTermDelimiter(input[i])
    ensures EmitsSign(NextStep(input, i, validRegex))
  {
    if SimpleKind(input[i]).Some? {
      PunctuationStep(input, i, validRegex);
    } else if input[i] == '&' || input[i] == '|' || input[i] == '~' {
      BooleanStep(input, i, validRegex);
    } else {
      OperatorStep(input, i, validRegex);
    }
  }

  lemma ValueStep(input: string, i: nat, validRegex: string -> bool)
    requires i < |input| && !IsTermDelimiter(input[i])
    ensures var step := NextStep(input, i, validRegex);
            step.Emit? ==>
              || (IsPlain(input[i]) && input[i] != '/' && step == TermStep(input, i))
              || (input[i] == '/' && !OpensBlockComment(input, i) && step == RegexStep(input, i, validRegex))
              || (IsQuote(input[i]) && step == StringStep(input, i))
  {
  }

  /** The tokenizer hands each character to the reader that can read it, and takes the rest as signs. */
  lemma StepKind(input: string, i: nat, validRegex: string -> bool)
    requires i < |input|
    ensures var step := NextStep(input, i, validRegex);
            step.Emit? ==>
              || (IsPlain(input[i]) && input[i] != '/' && step == TermStep(input, i))
              || (input[i] == '/' && !OpensBlockComment(input, i) && step == RegexStep(input, i, validRegex))
              || (IsQuote(input[i]) && step == StringStep(input, i))
              || (IsSign(step.token.lexeme) && step.token.raw == step.token.lexeme.value)
  {
    if !IsTermDelimiter(input[i]) {
      ValueStep(input, i, validRegex);
    } else if !IsSpace(input[i]) {
      SignStep(input, i, validRegex);
    }
  }

  lemma StepIsLegal(input: string, i: nat, validRegex: string -> bool)
    requires i < |input| && NextStep(input, i, validRegex).Emit?
    ensures Legal(NextStep(input, i, validRegex).token, validRegex)
  {
    StepKind(input, i, validRegex);
    var step := NextStep(input, i, validRegex);
    if IsPlain(input[i]) && input[i] != '/' && step == TermStep(input, i) {
      TermStepLegal(input, i, validRegex);
    } else if input[i] == '/' && !OpensBlockComment(input, i) && step == RegexStep(input, i, validRegex) {
      RegexStepLegal(input, i, validRegex);
    } else if IsQuote(input[i]) && step == StringStep(input, i) {
      StringStepLegal(input, i, validRegex);
    } else {
      SignIsLegal(step.token, validRegex);
    }
  }

  lemma SignIsLegal(t: Token, validRegex: string -> bool)
    requires IsSign(t.lexeme) && t.raw == t.lexeme.value
    ensures Legal(t, validRegex)
  {
  }

  ghost predicate AllLegal(tokens: seq<Token>, validRegex: string -> bool) {
    forall i | 0 <= i < |tokens| :: Legal(tokens[i], validRegex)
  }

  /** Only legally spelled tokens are ever read. */
  lemma {:induction false} TokensAreLegal(input: string, i: nat, validRegex: string -> bool)
    requires i <= |input|
    ensures AllLegal(Tokenize(input, i, false, validRegex).tokens, validRegex)
    decreases |input| - i
  {
    if i < |input| {
      match NextStep(input, i, validRegex)
      case Skip(end) => TokensAreLegal(input, end, validRegex);
      case Remark(token) =>
        TokensAreLegal(input, token.end, validRegex);
        var rest := Tokenize(input, token.end, false, validRegex);
        assert [] + rest.tokens == rest.tokens;
      case Emit(token) =>
        TokensAreLegal(input, token.end, validRegex);
        StepIsLegal(input, i, validRegex);
      case Stop(_, _) =>
    }
  }

  /** The values of terms and regular expressions can be written. */
  predicate ValueFits(l: Lexeme, validRegex: string -> bool) {
    && (l.kind == TermValue ==> IsTermValue(l.value))
    && (l.kind == RegexValue ==> IsRegexValue(l.value, validRegex))
  }

  ghost predicate AllFit(ls: seq<Lexeme>, validRegex: string -> bool) {
    forall i | 0 <= i < |ls| :: ValueFits(ls[i], validRegex)
  }

  lemma TokensFit(input: string, validRegex: string -> bool)
    ensures AllFit(Lexemes(Tokenize(input, 0, false, validRegex).tokens), validRegex)
  {
    TokensAreLegal(input, 0, validRegex);
    var tokens := Tokenize(input, 0, false, validRegex).tokens;
    forall i | 0 <= i < |tokens|
      ensures ValueFits(Lexemes(tokens)[i], validRegex)
    {
      assert Legal(tokens[i], validRegex);
    }
  }

  lemma {:induction false} LowerColon(value: string)
    ensures IndexOf(AsciiLower(value), ':') == IndexOf(value, ':')
  {
    if value != "" {
      LowerColon(value[1..]);
      assert AsciiLower(value)[1..] == AsciiLower(value[1..]);
    }
  }

  lemma LowerIsPlain(c: char)
    requires IsPlain(c) && c != '/'
    ensures IsPlain(LowerChar(c)) && LowerChar(c) != '/'
  {
    if 'A' <= c <= 'Z' {
      LetterIsPlain(LowerChar(c));
    }
  }

  lemma LowerIsTerm(value: string)
    requires IsTermValue(value)
    ensures IsTermValue(AsciiLower(value))
  {
    LowerIsPlain(value[0]);
    AsciiLowerIdempotent(value);
    LowerColon(value);
  }

  /** A name that starts with a plain letter, has no colon and is no word. */
  lemma NameIsTerm(name: string)
    requires |name| > 3 && IsLetter(name[0]) && forall i | 0 <= i < |name| :: name[i] != ':'
    ensures IsTermValue(name)
  {
    LetterIsPlain(name[0]);
    NoColon(name);
    assert |AsciiLower(name)| > 3;
  }

  const STANDARD_FIELDS: seq<string> :=
    ["vps.id", "vps.display_name", "vps.status", "vps.tag", "vps.last_seen_at", "vps.region"]

  lemma StandardIsTerm(name: string)
    requires name in STANDARD_FIELDS
    ensures IsTermValue(name)
  {
    assert |name| > 3 && name[0] == 'v';
    assert forall i | 0 <= i < |name| :: name[i] != ':';
    NameIsTerm(name);
  }

  lemma CanonicalCases(field: string)
    ensures CanonicalField(field) == AsciiLower(field) || CanonicalField(field) in STANDARD_FIELDS
  {
  }

  lemma CanonicalIsTerm(field: string)
    requires IsTermValue(field)
    ensures IsTermValue(CanonicalField(field))
  {
    CanonicalCases(field);
    if CanonicalField(field) in STANDARD_FIELDS {
      StandardIsTerm(CanonicalField(field));
    } else {
      LowerIsTerm(field);
    }
  }

  lemma {:induction false} NoColonBefore(s: string, i: nat)
    requires 0 <= i < IndexOf(s, ':')
    ensures s[i] != ':'
  {
    if i > 0 {
      NoColonBefore(s[1..], i - 1);
    }
  }

  /** A namespace of the fleet is a field name. */
  lemma NamespaceIsTerm(raw: string, k: nat)
    requires k == IndexOf(raw, ':') && StartsWith(AsciiLower(raw[..k]), "vps.")
    ensures IsTermValue(AsciiLower(raw[..k]))
  {
    var lower := AsciiLower(raw[..k]);
    assert lower[0] == "vps."[0];
    forall i | 0 <= i < |lower|
      ensures lower[i] != ':'
    {
      NoColonBefore(raw, i);
      assert lower[i] == LowerChar(raw[i]);
    }
    NameIsTerm(lower);
  }

  /** What a shorthand can stand for; `field` is the field that a namespace of the fleet names. */
  predicate FromShorthand(p: Predicate, raw: string, fleet: bool, field: string, standard: string -> bool) {
    || p == Bare(raw)
    || (p.Comparison? && standard(p.field))
    || (p.Comparison? && fleet && p.field == field)
    || (p.Membership? && standard(p.field) && |p.values| == 1 && p.values[0].Literal?)
  }

  predicate IsFleet(lower: string) {
    StartsWith(lower, "vps.")
  }

  lemma ShorthandCases(raw: string)
    requires ':' in raw
    ensures var lower := AsciiLower(raw[..IndexOf(raw, ':')]);
            FromShorthand(ShorthandPredicate(raw), raw, IsFleet(lower), CanonicalField(lower), IsStandard)
  {
  }

  lemma FromShorthandIsWritable(p: Predicate, raw: string, fleet: bool, field: string, standard: string -> bool, validRegex: string -> bool)
    requires IsTermValue(raw) && FromShorthand(p, raw, fleet, field, standard) && (fleet ==> IsTermValue(field))
    requires forall name :: standard(name) ==> IsTermValue(name)
    ensures WritablePredicate(p, validRegex)
  {
  }

  predicate IsStandard(name: string) {
    name in STANDARD_FIELDS
  }

  lemma StandardAreTerms()
    ensures forall name :: IsStandard(name) ==> IsTermValue(name)
  {
    forall name | IsStandard(name)
      ensures IsTermValue(name)
    {
      StandardIsTerm(name);
    }
  }

  lemma FleetFieldIsTerm(raw: string, k: nat)
    requires k == IndexOf(raw, ':') && IsFleet(AsciiLower(raw[..k]))
    ensures IsTermValue(CanonicalField(AsciiLower(raw[..k])))
  {
    NamespaceIsTerm(raw, k);
    CanonicalIsTerm(AsciiLower(raw[..k]));
  }

  lemma ShorthandIsWritable(raw: string, validRegex: string -> bool)
    requires IsTermValue(raw) && ':' in raw
    ensures WritablePredicate(ShorthandPredicate(raw), validRegex)
  {
    var k := IndexOf(raw, ':');
    var lower := AsciiLower(raw[..k]);
    if IsFleet(lower) {
      FleetFieldIsTerm(raw, k);
    }
    ShorthandCases(raw);
    StandardAreTerms();
    FromShorthandIsWritable(ShorthandPredicate(raw), raw, IsFleet(lower), CanonicalField(lower), IsStandard, validRegex);
  }

  lemma TermIsWritable(raw: string, validRegex: string -> bool)
    requires IsTermValue(raw)
    ensures WritablePredicate(PredicateFromTerm(raw), validRegex)
  {
    LowerIsTerm(raw);
    if ':' in raw {
      ShorthandIsWritable(raw, validRegex);
    }
  }

  lemma {:induction false} ItemsAreWritable(ts: seq<Lexeme>, values: seq<ListValue>, validRegex: string -> bool)
    requires GItems(ts, values) && AllFit(ts, validRegex)
    ensures forall i | 0 <= i < |values| :: WritableValue(values[i], validRegex)
  {
    assert ValueFits(ts[0], validRegex);
    if |values| > 1 {
      ItemsAreWritable(ts[2..], values[1..], validRegex);
      assert forall i | 0 < i < |values| :: values[i] == values[1..][i - 1];
    }
  }

  lemma FieldIsWritable(field: string, p: Predicate, validRegex: string -> bool)
    requires IsTermValue(field)
    requires (p.Comparison? && p.field == CanonicalField(field)) ||
             (p.Membership? && p.field == CanonicalField(field) && forall i | 0 <= i < |p.values| :: WritableValue(p.values[i], validRegex))
    ensures WritablePredicate(p, validRegex)
  {
    CanonicalIsTerm(field);
  }

  lemma PredicateIsWritable(ts: seq<Lexeme>, p: Predicate, validRegex: string -> bool)
    requires GPredicate(ts, p) && AllFit(ts, validRegex)
    ensures WritablePredicate(p, validRegex)
  {
    assert ValueFits(ts[0], validRegex);
    if |ts| == 1 && p == PredicateFromTerm(ts[0].value) {
      TermIsWritable(ts[0].value, validRegex);
    } else {
      if p.Membership? {
        var n := if p.negated then 3 else 2;
        assert GList(ts[n..], p.values);
        assert ts[n..][1..] == ts[n + 1..];
        ItemsAreWritable(ts[n + 1..], p.values, validRegex);
      }
      FieldIsWritable(ts[0].value, p, validRegex);
    }
  }

  lemma {:induction false} NotIsWritable(ts: seq<Lexeme>, e: Expr, validRegex: string -> bool)
    requires GNot(ts, e) && AllFit(ts, validRegex)
    ensures Writable(e, validRegex)
    decreases |ts|, 1
  {
    if e.Pred? && GPredicate(ts, e.pred) {
      PredicateIsWritable(ts, e.pred, validRegex);
    } else if GPrimary(ts, e) {
      OrIsWritable(ts[1..|ts| - 1], e, validRegex);
    } else {
      NotIsWritable(ts[1..], e.expression, validRegex);
    }
  }

  lemma {:induction false} AndIsWritable(ts: seq<Lexeme>, e: Expr, validRegex: string -> bool)
    requires GAnd(ts, e) && AllFit(ts, validRegex)
    ensures Writable(e, validRegex)
    decreases |ts|, 2
  {
    if GNot(ts, e) {
      NotIsWritable(ts, e, validRegex);
    } else {
      var k :| 0 < k < |ts| && GAnd(ts[..k], e.left) && GConjunct(ts[k..], e.right);
      AndIsWritable(ts[..k], e.left, validRegex);
      NotIsWritable(if GNot(ts[k..], e.right) then ts[k..] else ts[k..][1..], e.right, validRegex);
    }
  }

  lemma {:induction false} OrIsWritable(ts: seq<Lexeme>, e: Expr, validRegex: string -> bool)
    requires GOr(ts, e) && AllFit(ts, validRegex)
    ensures Writable(e, validRegex)
    decreases |ts|, 3
  {
    if GAnd(ts, e) {
      AndIsWritable(ts, e, validRegex);
    } else {
      var k := OrSplit(ts, e);
      OrIsWritable(ts[..k], e.left, validRegex);
      AndIsWritable(ts[k + 1..], e.right, validRegex);
    }
  }

  /** Whatever a search reads can be printed and written, and breaks no rule. */
  lemma ReadIsWritable(input: string, syntax: Syntax, e: Expr)
    requires ParseSearchExpression(input, syntax) == Search(Some(e))
    ensures Printable(e) && Writable(e, syntax.validRegex) && !AnyRuleError(syntax, e)
  {
    var ts := Lexemes(Tokenize(input, 0, false, syntax.validRegex).tokens);
    assert ParseAll(ts).value == Some(e) && ParseAll(ts).error == None;
    ParserMatchesGrammar(ts, e);
    OrIsPrintable(ts, e);
    TokensFit(input, syntax.validRegex);
    OrIsWritable(ts, e, syntax.validRegex);
  }

  /** Printing whatever was read, and reading that text, gives the same expression. */
  lemma ReadPrintRead(input: string, syntax: Syntax, e: Expr)
    requires ParseSearchExpression(input, syntax) == Search(Some(e))
    ensures Printable(e) && ParseSearchExpression(PrintText(e), syntax) == Search(Some(e))
  {
    ReadIsWritable(input, syntax, e);
    PrintTextReadsBack(e, syntax);
  }

  /** An expression can be read from some text exactly when it is printable, writable and breaks no rule. */
  lemma ReadableExactly(e: Expr, syntax: Syntax)
    ensures (exists input :: ParseSearchExpression(input, syntax) == Search(Some(e))) <==>
            Printable(e) && Writable(e, syntax.validRegex) && !AnyRuleError(syntax, e)
  {
    if input :| ParseSearchExpression(input, syntax) == Search(Some(e)) {
      ReadIsWritable(input, syntax, e);
    }
    if Printable(e) && Writable(e, syntax.validRegex) && !AnyRuleError(syntax, e) {
      PrintTextReadsBack(e, syntax);
    }
  }
}
