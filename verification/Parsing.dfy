/**
 The recursive-descent parser of search expressions as functions from a token list and a
 position to a result, a new position and an error (frontend/src/searchExpression.ts).
 */
module Parsing {
  import opened Options
  import opened Tokenizer
  import opened Expressions

  datatype Parsed<+T> = Parsed(value: Option<T>, pos: nat, error: Option<string>)

  predicate IsKind(ts: seq<Lexeme>, pos: nat, kind: Kind) {
    pos < |ts| && ts[pos].kind == kind
  }

  /** The parser fails exactly when it returns nothing, and otherwise it has consumed something. */
  predicate Orderly<T>(ts: seq<Lexeme>, pos: nat, r: Parsed<T>) {
    pos <= r.pos <= |ts| && (r.value.None? <==> r.error.Some?) && (r.error.None? ==> pos < r.pos)
  }

  function Fail<T>(pos: nat, error: string): Parsed<T> {
    Parsed(None, pos, Some(error))
  }

  function Good<T>(value: T, pos: nat): Parsed<T> {
    Parsed(Some(value), pos, None)
  }

  /** The position after the next token, if there is one. */
  function Past(ts: seq<Lexeme>, pos: nat): nat {
    if pos < |ts| then pos + 1 else pos
  }

  // ---- predicates ------------------------------------------------------------------------

  function OperatorAt(ts: seq<Lexeme>, pos: nat): Option<Comparator> {
    if IsKind(ts, pos, OperatorSign) then ComparatorOf(ts[pos].value) else None
  }

  predicate IsScalar(ts: seq<Lexeme>, pos: nat) {
    IsKind(ts, pos, TermValue) || IsKind(ts, pos, StringValue)
  }

  predicate IsListValue(ts: seq<Lexeme>, pos: nat) {
    IsScalar(ts, pos) || IsKind(ts, pos, RegexValue)
  }

  function ListValueAt(ts: seq<Lexeme>, pos: nat): ListValue
    requires IsListValue(ts, pos)
  {
    if ts[pos].kind == RegexValue then Pattern(ts[pos].value) else Literal(ts[pos].value)
  }

  function ParseItems(ts: seq<Lexeme>, pos: nat, values: seq<ListValue>): (r: Parsed<seq<ListValue>>)
    requires pos <= |ts|
    ensures Orderly(ts, pos, r) && (r.value.Some? ==> values < r.value.value)
    decreases |ts| - pos
  {
    if !IsListValue(ts, pos) then
      Fail(Past(ts, pos), if values == [] && IsKind(ts, pos, RightBracket) then "Membership list must not be empty"
                          else "Membership list contains an invalid value")
    else
      var more := values + [ListValueAt(ts, pos)];
      if IsKind(ts, pos + 1, CommaSign) then ParseItems(ts, pos + 2, more)
      else if IsKind(ts, pos + 1, RightBracket) then Good(more, pos + 2)
      else Fail(pos + 1, "Membership list values must be comma-separated")
  }

  function ParseList(ts: seq<Lexeme>, pos: nat): (r: Parsed<seq<ListValue>>)
    requires pos <= |ts|
    ensures Orderly(ts, pos, r) && (r.value.Some? ==> r.value.value != [])
  {
    if IsKind(ts, pos, LeftBracket) then ParseItems(ts, pos + 1, [])
    else Fail(Past(ts, pos), "Membership comparison is missing [")
  }

  function MembershipOf(field: string, negated: bool, list: Parsed<seq<ListValue>>): Parsed<Predicate> {
    if list.value.None? then Parsed(None, list.pos, list.error)
    else Parsed(Some(Membership(field, negated, list.value.value)), list.pos, list.error)
  }

  /** What follows a term decides whether it names a field or stands alone. */
  function PredicateAfter(ts: seq<Lexeme>, pos: nat, field: string, alone: Predicate): (r: Parsed<Predicate>)
    requires pos <= |ts|
    ensures pos <= r.pos <= |ts| && (r.value.None? <==> r.error.Some?)
  {
    if OperatorAt(ts, pos).Some? then
      if IsScalar(ts, pos + 1) then Good(Comparison(field, OperatorAt(ts, pos).value, ts[pos + 1].value), pos + 2)
      else Fail(Past(ts, pos + 1), "Comparison is missing a scalar value")
    else if IsKind(ts, pos, InWord) then MembershipOf(field, false, ParseList(ts, pos + 1))
    else if IsKind(ts, pos, NotWord) && IsKind(ts, pos + 1, InWord) then MembershipOf(field, true, ParseList(ts, pos + 2))
    else Good(alone, pos)
  }

  function ParsePredicate(ts: seq<Lexeme>, pos: nat, raw: string): (r: Parsed<Predicate>)
    requires pos <= |ts|
    ensures pos <= r.pos <= |ts| && (r.value.None? <==> r.error.Some?)
  {
    PredicateAfter(ts, pos, CanonicalField(raw), PredicateFromTerm(raw))
  }

  // ---- expressions -----------------------------------------------------------------------

  predicate StartsPrimary(ts: seq<Lexeme>, pos: nat) {
    IsKind(ts, pos, TermValue) || IsKind(ts, pos, LeftParen) || IsKind(ts, pos, NotWord)
  }

  function ParsePrimary(ts: seq<Lexeme>, pos: nat): (r: Parsed<Expr>)
    requires pos <= |ts|
    ensures Orderly(ts, pos, r)
    decreases |ts| - pos, 0
  {
    if pos == |ts| then Fail(pos, "Expression is incomplete")
    else if IsKind(ts, pos, TermValue) then
      var p := ParsePredicate(ts, pos + 1, ts[pos].value);
      if p.value.None? then Parsed(None, p.pos, p.error) else Good(Pred(p.value.value), p.pos)
    else if IsKind(ts, pos, LeftParen) then
      var e := ParseOr(ts, pos + 1);
      if !IsKind(ts, e.pos, RightParen) then Fail(Past(ts, e.pos), "Missing closing parenthesis")
      else Parsed(e.value, e.pos + 1, e.error)
    else Fail(pos + 1, if IsKind(ts, pos, RightParen) then "Unexpected closing parenthesis"
                       else "Operator is missing a left operand")
  }

  function ParseNot(ts: seq<Lexeme>, pos: nat): (r: Parsed<Expr>)
    requires pos <= |ts|
    ensures Orderly(ts, pos, r)
    decreases |ts| - pos, 1
  {
    if IsKind(ts, pos, NotWord) then
      var e := ParseNot(ts, pos + 1);
      if e.value.None? then Fail(e.pos, "NOT is missing an operand") else Good(Not(e.value.value), e.pos)
    else ParsePrimary(ts, pos)
  }

  /** Extends `acc` by every conjunct that follows it, joined by a word or just placed after it. */
  function AndRest(ts: seq<Lexeme>, acc: Parsed<Expr>): (r: Parsed<Expr>)
    requires acc.pos <= |ts| && (acc.value.None? <==> acc.error.Some?)
    ensures acc.pos <= r.pos <= |ts| && (r.value.None? <==> r.error.Some?)
    decreases |ts| - acc.pos, 2
  {
    if acc.error.Some? then acc
    else if IsKind(ts, acc.pos, AndWord) then
      var right := ParseNot(ts, acc.pos + 1);
      if right.value.None? then Fail(right.pos, "Operator is missing an operand")
      else AndRest(ts, Good(And(acc.value.value, right.value.value), right.pos))
    else if StartsPrimary(ts, acc.pos) then
      var right := ParseNot(ts, acc.pos);
      if right.value.None? then Fail(right.pos, "Expression is incomplete")
      else AndRest(ts, Good(And(acc.value.value, right.value.value), right.pos))
    else acc
  }

  function ParseAnd(ts: seq<Lexeme>, pos: nat): (r: Parsed<Expr>)
    requires pos <= |ts|
    ensures Orderly(ts, pos, r)
    decreases |ts| - pos, 3
  {
    AndRest(ts, ParseNot(ts, pos))
  }

  function OrRest(ts: seq<Lexeme>, acc: Parsed<Expr>): (r: Parsed<Expr>)
    requires acc.pos <= |ts| && (acc.value.None? <==> acc.error.Some?)
    ensures acc.pos <= r.pos <= |ts| && (r.value.None? <==> r.error.Some?)
    decreases |ts| - acc.pos, 4
  {
    if acc.error.Some? || !IsKind(ts, acc.pos, OrWord) then acc
    else
      var right := ParseAnd(ts, acc.pos + 1);
      if right.value.None? then Fail(right.pos, "Operator is missing an operand")
      else OrRest(ts, Good(Or(acc.value.value, right.value.value), right.pos))
  }

  function ParseOr(ts: seq<Lexeme>, pos: nat): (r: Parsed<Expr>)
    requires pos <= |ts|
    ensures Orderly(ts, pos, r)
    decreases |ts| - pos, 5
  {
    OrRest(ts, ParseAnd(ts, pos))
  }

  /** A token list is an expression when the parser consumes all of it. */
  function ParseAll(ts: seq<Lexeme>): Parsed<Expr> {
    var r := ParseOr(ts, 0);
    if r.error.None? && r.pos < |ts| then Fail(r.pos, "Unexpected token after expression") else r
  }
}
