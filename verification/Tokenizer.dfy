/**
 The tokenizer of the search expression language (frontend/src/searchExpression.ts): what it
 reads as a function of the input, and the loops that compute it.
 */
module Tokenizer {
  import opened Options
  import opened Texts

  datatype Kind =
    | AndWord | OrWord | NotWord | InWord
    | LeftParen | RightParen | LeftBracket | RightBracket | CommaSign
    | OperatorSign | StringValue | RegexValue | TermValue | CommentText

  /** All that the parser looks at. */
  datatype Lexeme = Lexeme(kind: Kind, value: string)

  datatype Token = Token(lexeme: Lexeme, raw: string, start: nat, end: nat)

  datatype Scan = Scan(tokens: seq<Token>, error: Option<string>)

  // ---- reading one item ------------------------------------------------------------

  /** Where a reader stopped, whether it found its closing delimiter, and the value it read. */
  datatype Extent = Extent(end: nat, closed: bool, value: string)

  function Prefixed(text: string, rest: Extent): Extent {
    rest.(value := text + rest.value)
  }

  lemma PrefixedTwice(a: string, b: string, rest: Extent)
    ensures Prefixed(a, Prefixed(b, rest)) == Prefixed(a + b, rest)
  {
    assert a + (b + rest.value) == (a + b) + rest.value;
  }

  function ScanQuoted(input: string, i: nat, quote: char, escaped: bool): (r: Extent)
    requires i <= |input|
    ensures i <= r.end <= |input| && (r.closed ==> i < r.end)
    decreases |input| - i
  {
    if i == |input| then Extent(i, false, "")
    else if escaped then Prefixed([input[i]], ScanQuoted(input, i + 1, quote, false))
    else if input[i] == '\\' then ScanQuoted(input, i + 1, quote, true)
    else if input[i] == quote then Extent(i + 1, true, "")
    else Prefixed([input[i]], ScanQuoted(input, i + 1, quote, false))
  }

  predicate IsTermDelimiter(c: char) {
    IsSpace(c) || c in "()[],=!<>|&~"
  }

  predicate OpensBlockComment(input: string, i: nat) {
    i + 1 < |input| && input[i] == '/' && input[i + 1] == '*'
  }

  /** An unquoted term ends in front of this position. */
  predicate StopsTerm(input: string, i: nat)
    requires i < |input|
  {
    IsTermDelimiter(input[i]) || input[i] == '#' || OpensBlockComment(input, i)
  }

  function ScanTerm(input: string, i: nat, quote: Option<char>, escaped: bool): (r: Extent)
    requires i <= |input|
    ensures i <= r.end <= |input|
    ensures i < |input| && (quote.Some? || !StopsTerm(input, i)) ==> i < r.end
    decreases |input| - i
  {
    if i == |input| then Extent(i, quote.None?, "")
    else if quote.None? then
      if StopsTerm(input, i) then Extent(i, true, "")
      else if input[i] == '"' || input[i] == '\'' then ScanTerm(input, i + 1, Some(input[i]), escaped)
      else Prefixed([input[i]], ScanTerm(input, i + 1, None, escaped))
    else if escaped then Prefixed([input[i]], ScanTerm(input, i + 1, quote, false))
    else if input[i] == '\\' then ScanTerm(input, i + 1, quote, true)
    else if input[i] == quote.value then ScanTerm(input, i + 1, None, false)
    else Prefixed([input[i]], ScanTerm(input, i + 1, quote, false))
  }

  function ScanRegex(input: string, i: nat, escaped: bool): (r: Extent)
    requires i <= |input|
    ensures i <= r.end <= |input| && (r.closed ==> i < r.end)
    decreases |input| - i
  {
    if i == |input| then Extent(i, false, "")
    else if escaped then Prefixed(['\\', input[i]], ScanRegex(input, i + 1, false))
    else if input[i] == '\\' then ScanRegex(input, i + 1, true)
    else if input[i] == '/' then Extent(i + 1, true, "")
    else Prefixed([input[i]], ScanRegex(input, i + 1, false))
  }

  function LineEnd(input: string, i: nat): (end: nat)
    requires i <= |input|
    ensures i <= end <= |input|
    decreases |input| - i
  {
    if i == |input| || input[i] == '\r' || input[i] == '\n' then i else LineEnd(input, i + 1)
  }

  /** The position after the next comment terminator. */
  function BlockEnd(input: string, i: nat): (end: Option<nat>)
    requires i <= |input|
    ensures end.Some? ==> i + 2 <= end.value <= |input|
    decreases |input| - i
  {
    if i + 1 >= |input| then None
    else if input[i] == '*' && input[i + 1] == '/' then Some(i + 2)
    else BlockEnd(input, i + 1)
  }

  /** A comment opens here: its end, or `None` when a block comment is never closed. */
  function CommentEnd(input: string, i: nat): (end: Option<nat>)
    requires i < |input| && (input[i] == '#' || OpensBlockComment(input, i))
    ensures end.Some? ==> i < end.value <= |input|
  {
    if input[i] == '#' then Some(LineEnd(input, i + 1)) else BlockEnd(input, i + 2)
  }

  // ---- one step of the tokenizer ------------------------------------------------------

  datatype Step =
    | Skip(end: nat)                            // white space
    | Remark(token: Token)                      // a comment, shown only when highlighting
    | Emit(token: Token)
    | Stop(error: string, shown: seq<Token>)    // highlighting also shows what was read so far

  function Cut(input: string, kind: Kind, start: nat, end: nat): Token
    requires start <= end <= |input|
  {
    Token(Lexeme(kind, input[start..end]), input[start..end], start, end)
  }

  function CutAs(input: string, kind: Kind, start: nat, end: nat, value: string): Token
    requires start <= end <= |input|
  {
    Token(Lexeme(kind, value), input[start..end], start, end)
  }

  function SimpleKind(c: char): Option<Kind> {
    match c
    case '(' => Some(LeftParen)
    case ')' => Some(RightParen)
    case '[' => Some(LeftBracket)
    case ']' => Some(RightBracket)
    case ',' => Some(CommaSign)
    case _ => None
  }

  /** The words are compared without regard to ASCII case; no other character folds into their letters. */
  function Keyword(value: string): Option<Kind> {
    var lower := AsciiLower(value);
    if lower == "and" then Some(AndWord)
    else if lower == "or" then Some(OrWord)
    else if lower == "not" then Some(NotWord)
    else if lower == "in" then Some(InWord)
    else None
  }

  function IndexOf(s: string, c: char): (i: int)
    ensures -1 <= i < |s|
    ensures i >= 0 ==> s[i] == c
    ensures c in s ==> i >= 0
  {
    if s == "" then -1
    else if s[0] == c then 0
    else var rest := IndexOf(s[1..], c); if rest < 0 then -1 else rest + 1
  }

  function StringStep(input: string, i: nat): Step
    requires i < |input|
  {
    var q := ScanQuoted(input, i + 1, input[i], false);
    var token := CutAs(input, StringValue, i, q.end, q.value);
    if q.closed then Emit(token) else Stop("Unterminated quoted value", [token])
  }

  predicate IsLetter(c: char) {
    'a' <= c <= 'z' || 'A' <= c <= 'Z'
  }

  function RegexStep(input: string, i: nat, validRegex: string -> bool): Step
    requires i < |input|
  {
    var r := ScanRegex(input, i + 1, false);
    var token := CutAs(input, RegexValue, i, r.end, r.value);
    if !r.closed then Stop("Unterminated regex value", [token])
    else if r.end < |input| && IsLetter(input[r.end]) then Stop("Regex flags are not supported", [token])
    else if !validRegex(r.value) then Stop("Invalid regex list value", [token])
    else Emit(token)
  }

  function TermStep(input: string, i: nat): Step
    requires i < |input|
  {
    var t := ScanTerm(input, i, None, false);
    var token := CutAs(input, TermValue, i, t.end, t.value);
    if !t.closed then Stop("Unterminated quoted value", [token])
    else if Keyword(t.value).Some? then Emit(Cut(input, Keyword(t.value).value, i, t.end))
    else if IndexOf(t.value, ':') == 0 then Stop("Selector namespace is empty", [])
    else if IndexOf(t.value, ':') == |t.value| - 1 then Stop("Selector value is empty", [])
    else Emit(token)
  }

  function NextStep(input: string, i: nat, validRegex: string -> bool): (step: Step)
    requires i < |input|
    // every step consumes at least one character
    ensures step.Skip? ==> i < step.end <= |input|
    ensures step.Emit? || step.Remark? ==>
              && step.token.start == i && i < step.token.end <= |input|
              && step.token.raw == input[i..step.token.end]
    ensures step.Emit? ==> step.token.lexeme.kind != CommentText
  {
    var c := input[i];
    var pair := i + 1 < |input|;
    if IsSpace(c) then Skip(i + 1)
    else if c == '#' || OpensBlockComment(input, i) then
      (match CommentEnd(input, i)
       case Some(end) => Remark(Cut(input, CommentText, i, end))
       case None => Stop("Unterminated block comment", [Cut(input, CommentText, i, |input|)]))
    else if SimpleKind(c).Some? then Emit(Cut(input, SimpleKind(c).value, i, i + 1))
    else if c == '&' || c == '|' then
      if pair && input[i + 1] == c then Emit(Cut(input, if c == '&' then AndWord else OrWord, i, i + 2))
      else Stop("Use && or || for boolean operators", [])
    else if c == '~' then Emit(Cut(input, NotWord, i, i + 1))
    else if c == '!' then
      if pair && input[i + 1] == '=' then Emit(Cut(input, OperatorSign, i, i + 2)) else Emit(Cut(input, NotWord, i, i + 1))
    else if c == '=' || c == '<' || c == '>' then
      if c != '=' && pair && input[i + 1] == '=' then Emit(Cut(input, OperatorSign, i, i + 2))
      else Emit(Cut(input, OperatorSign, i, i + 1))
    else if c == '"' || c == '\'' then StringStep(input, i)
    else if c == '/' then RegexStep(input, i, validRegex)
    else
      // everything that would stop a term at once has been claimed above
      assert !StopsTerm(input, i);
      TermStep(input, i)
  }

  // ---- the whole input -------------------------------------------------------------------

  function Before(shown: seq<Token>, rest: Scan): Scan {
    Scan(shown + rest.tokens, rest.error)
  }

  function Tokenize(input: string, i: nat, comments: bool, validRegex: string -> bool): Scan
    requires i <= |input|
    decreases |input| - i
  {
    if i == |input| then Scan([], None)
    else
      match NextStep(input, i, validRegex)
      case Skip(end) => Tokenize(input, end, comments, validRegex)
      case Remark(token) => Before(if comments then [token] else [], Tokenize(input, token.end, comments, validRegex))
      case Emit(token) => Before([token], Tokenize(input, token.end, comments, validRegex))
      case Stop(error, shown) => Scan(if comments then shown else [], Some(error))
  }

  function Lexemes(tokens: seq<Token>): seq<Lexeme> {
    seq(|tokens|, i requires 0 <= i < |tokens| => tokens[i].lexeme)
  }

  /** Only white space, and comments when they are not shown, lies between two positions. */
  predicate Blank(input: string, a: nat, b: nat, comments: bool)
    requires a <= b <= |input|
    decreases b - a
  {
    || a == b
    || (IsSpace(input[a]) && Blank(input, a + 1, b, comments))
    || (!comments && (input[a] == '#' || OpensBlockComment(input, a)) && CommentEnd(input, a).Some? &&
        CommentEnd(input, a).value <= b && Blank(input, CommentEnd(input, a).value, b, comments))
  }

  /** The tokens lie in order and apart, each is its own span, and nothing but blanks lies between. */
  predicate Covers(input: string, i: nat, tokens: seq<Token>, comments: bool)
    requires i <= |input|
    decreases |tokens|
  {
    if tokens == [] then Blank(input, i, |input|, comments)
    else
      var t := tokens[0];
      && i <= t.start < t.end <= |input|
      && Blank(input, i, t.start, comments)
      && t.raw == input[t.start..t.end]
      && Covers(input, t.end, tokens[1..], comments)
  }

  lemma CoversAfterBlank(input: string, i: nat, k: nat, tokens: seq<Token>, comments: bool)
    requires i < k <= |input| && Covers(input, k, tokens, comments)
    requires (IsSpace(input[i]) && k == i + 1) ||
             (!comments && (input[i] == '#' || OpensBlockComment(input, i)) && CommentEnd(input, i) == Some(k))
    ensures Covers(input, i, tokens, comments)
  {
  }

  lemma CoversAfterToken(input: string, token: Token, rest: seq<Token>, comments: bool)
    requires token.start < token.end <= |input| && token.raw == input[token.start..token.end]
    requires Covers(input, token.end, rest, comments)
    ensures Covers(input, token.start, [token] + rest, comments)
  {
    assert ([token] + rest)[1..] == rest;
  }

  /** What a step skips is blank. */
  lemma SkippedIsBlank(input: string, i: nat, validRegex: string -> bool)
    requires i < |input|
    ensures var step := NextStep(input, i, validRegex);
            && (step.Skip? ==> IsSpace(input[i]) && step.end == i + 1)
            && (step.Remark? ==>
                  (input[i] == '#' || OpensBlockComment(input, i)) && CommentEnd(input, i) == Some(step.token.end))
  {
  }

  /** On every accepted input the tokens and the blanks between them make up the whole input. */
  lemma {:induction false} TokensCoverInput(input: string, i: nat, comments: bool, validRegex: string -> bool)
    requires i <= |input| && Tokenize(input, i, comments, validRegex).error.None?
    ensures Covers(input, i, Tokenize(input, i, comments, validRegex).tokens, comments)
    decreases |input| - i
  {
    if i < |input| {
      var step := NextStep(input, i, validRegex);
      SkippedIsBlank(input, i, validRegex);
      if step.Skip? || step.Remark? || step.Emit? {
        var next := if step.Skip? then step.end else step.token.end;
        var rest := Tokenize(input, next, comments, validRegex).tokens;
        TokensCoverInput(input, next, comments, validRegex);
        if step.Emit? || (step.Remark? && comments) {
          CoversAfterToken(input, step.token, rest, comments);
        } else {
          assert [] + rest == rest;
          CoversAfterBlank(input, i, next, rest, comments);
        }
      }
    }
  }

  function WithoutComments(tokens: seq<Token>): seq<Token> {
    if tokens == [] then []
    else (if tokens[0].lexeme.kind == CommentText then [] else [tokens[0]]) + WithoutComments(tokens[1..])
  }

  /** Both forms fail alike, and without its comments the highlighting form is the plain form. */
  lemma {:induction false} CommentsAreOnlyShown(input: string, i: nat, validRegex: string -> bool)
    requires i <= |input|
    ensures var shown := Tokenize(input, i, true, validRegex);
            var plain := Tokenize(input, i, false, validRegex);
            shown.error == plain.error && (plain.error.None? ==> WithoutComments(shown.tokens) == plain.tokens)
    decreases |input| - i
  {
    if i < |input| {
      match NextStep(input, i, validRegex)
      case Skip(end) => CommentsAreOnlyShown(input, end, validRegex);
      case Remark(token) =>
        CommentsAreOnlyShown(input, token.end, validRegex);
        var rest := Tokenize(input, token.end, true, validRegex).tokens;
        assert ([token] + rest)[1..] == rest;
      case Emit(token) =>
        CommentsAreOnlyShown(input, token.end, validRegex);
        var rest := Tokenize(input, token.end, true, validRegex).tokens;
        assert ([token] + rest)[1..] == rest;
      case Stop(_, _) =>
    }
  }
}
