/** The loops of the tokenizer, each proved to compute the function that specifies it. */
module TokenizerLoops {
  import opened Options
  import opened Texts
  import opened Tokenizer

  method ReadQuoted(input: string, start: nat, quote: char) returns (r: Extent)
    requires start < |input|
    ensures r == ScanQuoted(input, start + 1, quote, false)
  {
    var value, escaped := "", false;
    var index := start + 1;
    while index < |input|
      invariant start < index <= |input|
      invariant ScanQuoted(input, start + 1, quote, false) == Prefixed(value, ScanQuoted(input, index, quote, escaped))
    {
      var c := input[index];
      PrefixedTwice(value, [c], ScanQuoted(input, index + 1, quote, false));
      if escaped {
        value, escaped := value + [c], false;
      } else if c == '\\' {
        escaped := true;
      } else if c == quote {
        return Extent(index + 1, true, value);
      } else {
        value := value + [c];
      }
      index := index + 1;
    }
    r := Extent(|input|, false, value);
  }

  method ReadTerm(input: string, start: nat) returns (r: Extent)
    requires start <= |input|
    ensures r == ScanTerm(input, start, None, false)
  {
    var escaped, value := false, "";
    var quote: Option<char> := None;
    var index := start;
    while index < |input|
      invariant start <= index <= |input|
      invariant quote.None? ==> !escaped
      invariant ScanTerm(input, start, None, false) == Prefixed(value, ScanTerm(input, index, quote, escaped))
    {
      var c := input[index];
      PrefixedTwice(value, [c], ScanTerm(input, index + 1, quote, false));
      if quote.None? && StopsTerm(input, index) {
        return Extent(index, true, value);
      }
      if quote.Some? {
        if escaped {
          value, escaped := value + [c], false;
        } else if c == '\\' {
          escaped := true;
        } else if c == quote.value {
          quote := None;
        } else {
          value := value + [c];
        }
      } else if c == '"' || c == '\'' {
        quote := Some(c);
      } else {
        value := value + [c];
      }
      index := index + 1;
    }
    r := Extent(|input|, quote.None?, value);
  }

  method ReadRegex(input: string, start: nat) returns (r: Extent)
    requires start < |input|
    ensures r == ScanRegex(input, start + 1, false)
  {
    var value, escaped := "", false;
    var index := start + 1;
    while index < |input|
      invariant start < index <= |input|
      invariant ScanRegex(input, start + 1, false) == Prefixed(value, ScanRegex(input, index, escaped))
    {
      var c := input[index];
      PrefixedTwice(value, [c], ScanRegex(input, index + 1, false));
      PrefixedTwice(value, ['\\', c], ScanRegex(input, index + 1, false));
      if escaped {
        value, escaped := value + ['\\', c], false;
      } else if c == '\\' {
        escaped := true;
      } else if c == '/' {
        return Extent(index + 1, true, value);
      } else {
        value := value + [c];
      }
      index := index + 1;
    }
    r := Extent(|input|, false, value);
  }

  method ReadComment(input: string, start: nat) returns (end: Option<nat>)
    requires start < |input| && (input[start] == '#' || OpensBlockComment(input, start))
    ensures end == CommentEnd(input, start)
  {
    if input[start] == '#' {
      var stop := start + 1;
      while stop < |input| && input[stop] != '\r' && input[stop] != '\n'
        invariant start < stop <= |input| && LineEnd(input, start + 1) == LineEnd(input, stop)
      {
        stop := stop + 1;
      }
      return Some(stop);
    }
    var close := start + 2;
    while close + 1 < |input|
      invariant start + 2 <= close <= |input| && BlockEnd(input, start + 2) == BlockEnd(input, close)
    {
      if input[close] == '*' && input[close + 1] == '/' {
        return Some(close + 2);
      }
      close := close + 1;
    }
    end := None;
  }

  /** Reads what starts at `index`, by the reader its first character calls for. */
  method ReadStep(input: string, index: nat, validRegex: string -> bool) returns (step: Step)
    requires index < |input|
    ensures step == NextStep(input, index, validRegex)
  {
    var c := input[index];
    if IsSpace(c) || SimpleKind(c).Some? || c in "&|~!=<>" {
      return NextStep(input, index, validRegex);
    }
    if c == '#' || OpensBlockComment(input, index) {
      var end := ReadComment(input, index);
      if end.Some? {
        return Remark(Cut(input, CommentText, index, end.value));
      }
      return Stop("Unterminated block comment", [Cut(input, CommentText, index, |input|)]);
    }
    if c == '"' || c == '\'' {
      var quoted := ReadQuoted(input, index, c);
      var token := CutAs(input, StringValue, index, quoted.end, quoted.value);
      return if quoted.closed then Emit(token) else Stop("Unterminated quoted value", [token]);
    }
    if c == '/' {
      var regex := ReadRegex(input, index);
      var token := CutAs(input, RegexValue, index, regex.end, regex.value);
      if !regex.closed {
        return Stop("Unterminated regex value", [token]);
      }
      if regex.end < |input| && IsLetter(input[regex.end]) {
        return Stop("Regex flags are not supported", [token]);
      }
      return if validRegex(regex.value) then Emit(token) else Stop("Invalid regex list value", [token]);
    }
    var term := ReadTerm(input, index);
    var token := CutAs(input, TermValue, index, term.end, term.value);
    if !term.closed {
      return Stop("Unterminated quoted value", [token]);
    }
    var keyword := Keyword(term.value);
    if keyword.Some? {
      return Emit(Cut(input, keyword.value, index, term.end));
    }
    var separator := IndexOf(term.value, ':');
    if separator == 0 {
      return Stop("Selector namespace is empty", []);
    }
    if separator == |term.value| - 1 {
      return Stop("Selector value is empty", []);
    }
    step := Emit(token);
  }

  lemma BeforeTwice(a: seq<Token>, b: seq<Token>, rest: Scan)
    ensures Before(a, Before(b, rest)) == Before(a + b, rest)
  {
    assert a + (b + rest.tokens) == (a + b) + rest.tokens;
  }

  method TokenizeSearchExpression(input: string, includeComments: bool, validRegex: string -> bool) returns (scan: Scan)
    ensures scan == Tokenize(input, 0, includeComments, validRegex)
  {
    var tokens: seq<Token> := [];
    var index := 0;
    while index < |input|
      invariant 0 <= index <= |input|
      invariant Tokenize(input, 0, includeComments, validRegex) ==
                Before(tokens, Tokenize(input, index, includeComments, validRegex))
    {
      var step := ReadStep(input, index, validRegex);
      match step {
        case Skip(end) =>
          index := end;
        case Remark(token) =>
          var shown := if includeComments then [token] else [];
          BeforeTwice(tokens, shown, Tokenize(input, token.end, includeComments, validRegex));
          tokens, index := tokens + shown, token.end;
        case Emit(token) =>
          BeforeTwice(tokens, [token], Tokenize(input, token.end, includeComments, validRegex));
          tokens, index := tokens + [token], token.end;
        case Stop(error, shown) =>
          return Scan(tokens + if includeComments then shown else [], Some(error));
      }
    }
    scan := Scan(tokens, None);
  }
}
