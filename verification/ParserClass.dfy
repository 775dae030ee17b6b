/** The parser object, which advances a position and records an error, proved to compute the parse functions. */
module ParserClass {
  import opened Options
  import opened Tokenizer
  import opened Expressions
  import opened Parsing

  class Parser {
    const tokens: seq<Lexeme>
    var error: Option<string>
    var position: nat

    constructor (tokens: seq<Lexeme>)
      ensures this.tokens == tokens && error == None && position == 0
    {
      this.tokens := tokens;
      error := None;
      position := 0;
    }

    ghost predicate Ready()
      reads this
    {
      position <= |tokens| && error.None?
    }

    /** The value returned and the state left behind are those of a parse result. */
    ghost predicate Reached<T>(r: Parsed<T>, value: Option<T>)
      reads this
    {
      value == r.value && position == r.pos && error == r.error
    }

    method AtEnd() returns (end: bool)
      ensures end <==> position >= |tokens|
    {
      end := position >= |tokens|;
    }

    method Advance() returns (token: Option<Lexeme>)
      requires position <= |tokens|
      modifies this`position
      ensures token == if old(position) < |tokens| then Some(tokens[old(position)]) else None
      ensures position == Past(tokens, old(position))
    {
      token := if position < |tokens| then Some(tokens[position]) else None;
      position := position + if token.Some? then 1 else 0;
    }

    method ParseOr() returns (expression: Option<Expr>)
      requires Ready()
      modifies this
      ensures Reached(Parsing.ParseOr(tokens, old(position)), expression) && position <= |tokens|
      decreases |tokens| - position, 5
    {
      ghost var start := position;
      expression := ParseAnd();
      while error.None? && IsKind(tokens, position, OrWord)
        invariant start < position <= |tokens| || error.Some?
        invariant position <= |tokens| && (expression.None? <==> error.Some?)
        invariant OrRest(tokens, Parsed(expression, position, error)) == Parsing.ParseOr(tokens, start)
        decreases |tokens| - position
      {
        position := position + 1;
        var right := ParseAnd();
        if right.None? {
          error := Some("Operator is missing an operand");
          return None;
        }
        expression := Some(Or(expression.value, right.value));
      }
    }

    method ParseAnd() returns (expression: Option<Expr>)
      requires Ready()
      modifies this
      ensures Reached(Parsing.ParseAnd(tokens, old(position)), expression) && position <= |tokens|
      decreases |tokens| - position, 3
    {
      ghost var start := position;
      expression := ParseNot();
      while error.None?
        invariant start < position <= |tokens| || error.Some?
        invariant position <= |tokens| && (expression.None? <==> error.Some?)
        invariant AndRest(tokens, Parsed(expression, position, error)) == Parsing.ParseAnd(tokens, start)
        decreases |tokens| - position
      {
        if IsKind(tokens, position, AndWord) {
          position := position + 1;
          var right := ParseNot();
          if right.None? {
            error := Some("Operator is missing an operand");
            return None;
          }
          expression := Some(And(expression.value, right.value));
        } else if StartsPrimary(tokens, position) {
          var right := ParseNot();
          if right.None? {
            error := Some("Expression is incomplete");
            return None;
          }
          expression := Some(And(expression.value, right.value));
        } else {
          break;
        }
      }
    }

    method ParseNot() returns (expression: Option<Expr>)
      requires Ready()
      modifies this
      ensures Reached(Parsing.ParseNot(tokens, old(position)), expression) && position <= |tokens|
      decreases |tokens| - position, 1
    {
      if IsKind(tokens, position, NotWord) {
        position := position + 1;
        var operand := ParseNot();
        if operand.None? {
          error := Some("NOT is missing an operand");
          return None;
        }
        return Some(Not(operand.value));
      }
      expression := ParsePrimary();
    }

    method ParsePrimary() returns (expression: Option<Expr>)
      requires Ready()
      modifies this
      ensures Reached(Parsing.ParsePrimary(tokens, old(position)), expression) && position <= |tokens|
      decreases |tokens| - position, 0
    {
      var token := Advance();
      if token.None? {
        error := Some("Expression is incomplete");
        return None;
      }
      if token.value.kind == TermValue {
        var predicate_ := ParsePredicate(token.value.value);
        return if predicate_.Some? then Some(Pred(predicate_.value)) else None;
      }
      if token.value.kind == LeftParen {
        expression := ParseOr();
        var close := Advance();
        if close.None? || close.value.kind != RightParen {
          error := Some("Missing closing parenthesis");
          return None;
        }
        return;
      }
      error := Some(if token.value.kind == RightParen then "Unexpected closing parenthesis"
                    else "Operator is missing a left operand");
      return None;
    }

    method ParsePredicate(raw: string) returns (result: Option<Predicate>)
      requires Ready()
      modifies this
      ensures Reached(Parsing.ParsePredicate(tokens, old(position), raw), result) && position <= |tokens|
    {
      result := ParseAfterTerm(CanonicalField(raw), PredicateFromTerm(raw));
    }

    method ParseAfterTerm(field: string, alone: Predicate) returns (result: Option<Predicate>)
      requires Ready()
      modifies this
      ensures Reached(PredicateAfter(tokens, old(position), field, alone), result) && position <= |tokens|
    {
      var operator := OperatorAt(tokens, position);
      if operator.Some? {
        position := position + 1;
        var value := ParseScalarValue();
        return if value.Some? then Some(Comparison(field, operator.value, value.value)) else None;
      }
      if IsKind(tokens, position, InWord) {
        position := position + 1;
        result := ParseMembership(field, false);
        return;
      }
      if IsKind(tokens, position, NotWord) && IsKind(tokens, position + 1, InWord) {
        position := position + 2;
        result := ParseMembership(field, true);
        return;
      }
      result := Some(alone);
    }

    method ParseMembership(field: string, negated: bool) returns (result: Option<Predicate>)
      requires Ready()
      modifies this
      ensures Reached(MembershipOf(field, negated, ParseList(tokens, old(position))), result) && position <= |tokens|
    {
      var values := ParseListValues();
      result := if values.Some? then Some(Membership(field, negated, values.value)) else None;
    }

    method ParseScalarValue() returns (value: Option<string>)
      requires Ready()
      modifies this
      ensures position == Past(tokens, old(position))
      ensures if IsScalar(tokens, old(position)) then value == Some(tokens[old(position)].value) && error == None
              else value == None && error == Some("Comparison is missing a scalar value")
    {
      var token := Advance();
      if token.Some? && (token.value.kind == TermValue || token.value.kind == StringValue) {
        return Some(token.value.value);
      }
      error := Some("Comparison is missing a scalar value");
      value := None;
    }

    method ParseListValues() returns (result: Option<seq<ListValue>>)
      requires Ready()
      modifies this
      ensures Reached(ParseList(tokens, old(position)), result) && position <= |tokens|
    {
      var open := Advance();
      if open.None? || open.value.kind != LeftBracket {
        error := Some("Membership comparison is missing [");
        return None;
      }
      result := ParseListItems();
    }

    /** One list value; anything else is an error. */
    method ParseListValue(first: bool) returns (value: Option<ListValue>)
      requires Ready()
      modifies this
      ensures position == Past(tokens, old(position))
      ensures if IsListValue(tokens, old(position)) then value == Some(ListValueAt(tokens, old(position))) && error == None
              else value == None && error == Some(if first && IsKind(tokens, old(position), RightBracket)
                                                  then "Membership list must not be empty" else "Membership list contains an invalid value")
    {
      var token := Advance();
      if token.Some? && (token.value.kind == TermValue || token.value.kind == StringValue) {
        return Some(Literal(token.value.value));
      }
      if token.Some? && token.value.kind == RegexValue {
        return Some(Pattern(token.value.value));
      }
      error := Some(if first && token.Some? && token.value.kind == RightBracket
                    then "Membership list must not be empty" else "Membership list contains an invalid value");
      value := None;
    }

    method ParseListItems() returns (result: Option<seq<ListValue>>)
      requires Ready()
      modifies this
      ensures Reached(ParseItems(tokens, old(position), []), result) && position <= |tokens|
    {
      ghost var start := position;
      var values: seq<ListValue> := [];
      while true
        invariant Ready() && ParseItems(tokens, position, values) == ParseItems(tokens, start, [])
        decreases |tokens| - position
      {
        var value := ParseListValue(values == []);
        if value.None? {
          return None;
        }
        values := values + [value.value];
        if IsKind(tokens, position, CommaSign) {
          position := position + 1;
        } else if IsKind(tokens, position, RightBracket) {
          position := position + 1;
          return Some(values);
        } else {
          error := Some("Membership list values must be comma-separated");
          return None;
        }
      }
    }
  }
}
