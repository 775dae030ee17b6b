/** A printer with full parentheses; every tree the parser can return parses back to itself. */
module Printing {
  import opened Options
  import opened Texts
  import opened Tokenizer
  import opened Expressions
  import opened Parsing
  import opened Grammar

  /** The spelling of the words. */
  datatype Words = Words(andWord: string, orWord: string, notWord: string, inWord: string)

  function PrintItem(value: ListValue): Lexeme {
    match value
    case Literal(text) => Lexeme(StringValue, text)
    case Pattern(text) => Lexeme(RegexValue, text)
  }

  function PrintItems(values: seq<ListValue>): seq<Lexeme>
    requires values != []
  {
    if |values| == 1 then [PrintItem(values[0]), Lexeme(RightBracket, "]")]
    else [PrintItem(values[0]), Lexeme(CommaSign, ",")] + PrintItems(values[1..])
  }

  function PrintPredicate(p: Predicate, w: Words): seq<Lexeme>
    requires Expressible(p)
  {
    match p
    case Bare(value) => [Lexeme(TermValue, value)]
    case Event(value) => [Lexeme(TermValue, value)]
    case Untagged => [Lexeme(TermValue, "untagged")]
    case Comparison(field, operator, value) =>
      [Lexeme(TermValue, field), Lexeme(OperatorSign, SignOf(operator)), Lexeme(StringValue, value)]
    case Membership(field, negated, values) =>
      [Lexeme(TermValue, field)] + (if negated then [Lexeme(NotWord, w.notWord)] else []) +
      [Lexeme(InWord, w.inWord), Lexeme(LeftBracket, "[")] + PrintItems(values)
  }

  predicate Printable(e: Expr) {
    match e
    case Pred(p) => Expressible(p)
    case Not(x) => Printable(x)
    case And(l, r) => Printable(l) && Printable(r)
    case Or(l, r) => Printable(l) && Printable(r)
  }

  function Enclosed(ts: seq<Lexeme>): seq<Lexeme> {
    [Lexeme(LeftParen, "(")] + ts + [Lexeme(RightParen, ")")]
  }

  function Print(e: Expr, w: Words): seq<Lexeme>
    requires Printable(e)
  {
    match e
    case Pred(p) => PrintPredicate(p, w)
    case Not(x) => Enclosed([Lexeme(NotWord, w.notWord)] + Print(x, w))
    case And(l, r) => Enclosed(Print(l, w) + [Lexeme(AndWord, w.andWord)] + Print(r, w))
    case Or(l, r) => Enclosed(Print(l, w) + [Lexeme(OrWord, w.orWord)] + Print(r, w))
  }

  // ---- what the parser returns can be printed --------------------------------------------------

  lemma PredicateIsExpressible(ts: seq<Lexeme>, p: Predicate)
    requires GPredicate(ts, p)
    ensures Expressible(p)
  {
    TermIsExpressible(ts[0].value);
    CanonicalFieldIdempotent(ts[0].value);
  }

  lemma {:induction false} NotIsPrintable(ts: seq<Lexeme>, e: Expr)
    requires GNot(ts, e)
    ensures Printable(e)
    decreases |ts|, 1
  {
    if e.Pred? && GPredicate(ts, e.pred) {
      PredicateIsExpressible(ts, e.pred);
    } else if GPrimary(ts, e) {
      OrIsPrintable(ts[1..|ts| - 1], e);
    } else {
      NotIsPrintable(ts[1..], e.expression);
    }
  }

  lemma {:induction false} AndIsPrintable(ts: seq<Lexeme>, e: Expr)
    requires GAnd(ts, e)
    ensures Printable(e)
    decreases |ts|, 2
  {
    if GNot(ts, e) {
      NotIsPrintable(ts, e);
    } else {
      var k :| 0 < k < |ts| && GAnd(ts[..k], e.left) && GConjunct(ts[k..], e.right);
      AndIsPrintable(ts[..k], e.left);
      NotIsPrintable(if GNot(ts[k..], e.right) then ts[k..] else ts[k..][1..], e.right);
    }
  }

  lemma {:induction false} OrIsPrintable(ts: seq<Lexeme>, e: Expr)
    requires GOr(ts, e)
    ensures Printable(e)
    decreases |ts|, 3
  {
    if GAnd(ts, e) {
      AndIsPrintable(ts, e);
    } else {
      var k :| 0 < k < |ts| && ts[k].kind == OrWord && GOr(ts[..k], e.left) && GAnd(ts[k + 1..], e.right);
      OrIsPrintable(ts[..k], e.left);
      AndIsPrintable(ts[k + 1..], e.right);
    }
  }

  // ---- what is printed parses back ---------------------------------------------------------------

  lemma {:induction false} ItemsDerive(values: seq<ListValue>)
    requires values != []
    ensures GItems(PrintItems(values), values)
  {
    if |values| > 1 {
      ItemsDerive(values[1..]);
      assert PrintItems(values)[2..] == PrintItems(values[1..]);
    }
  }

  lemma PredicateDerives(p: Predicate, w: Words)
    requires Expressible(p)
    ensures GPredicate(PrintPredicate(p, w), p)
  {
    var ts := PrintPredicate(p, w);
    match p
    case Bare(_) =>
    case Event(_) =>
    case Untagged => LowerCaseIsFixed("untagged");
    case Comparison(_, _, _) =>
    case Membership(_, negated, values) =>
      ItemsDerive(values);
      var list := ts[if negated then 3 else 2..];
      assert list[0].kind == LeftBracket && list[1..] == PrintItems(values);
  }

  /** A primary is an expression of every level. */
  lemma PrimaryIsAny(ts: seq<Lexeme>, e: Expr)
    requires GPrimary(ts, e)
    ensures GNot(ts, e) && GAnd(ts, e) && GOr(ts, e)
  {
    assert GNot(ts, e);
    assert GAnd(ts, e);
  }

  lemma EnclosedDerives(ts: seq<Lexeme>, e: Expr)
    requires GOr(ts, e)
    ensures GPrimary(Enclosed(ts), e)
  {
    assert Enclosed(ts)[1..|Enclosed(ts)| - 1] == ts;
  }

  lemma NegationDerives(ts: seq<Lexeme>, e: Expr, w: Words)
    requires GPrimary(ts, e)
    ensures GOr([Lexeme(NotWord, w.notWord)] + ts, Not(e))
  {
    var all := [Lexeme(NotWord, w.notWord)] + ts;
    PrimaryIsAny(ts, e);
    assert all[1..] == ts;
    assert GNot(all, Not(e));
    assert GAnd(all, Not(e));
  }

  lemma ConjunctionDerives(ls: seq<Lexeme>, l: Expr, rs: seq<Lexeme>, r: Expr, w: Words)
    requires GPrimary(ls, l) && GPrimary(rs, r) && |ls| > 0
    ensures GOr(ls + [Lexeme(AndWord, w.andWord)] + rs, And(l, r))
  {
    var all, k := ls + [Lexeme(AndWord, w.andWord)] + rs, |ls|;
    PrimaryIsAny(ls, l);
    PrimaryIsAny(rs, r);
    assert all[..k] == ls && all[k..][1..] == rs && all[k..][0].kind == AndWord;
    assert GConjunct(all[k..], r);
    assert GAnd(all, And(l, r));
  }

  lemma DisjunctionDerives(ls: seq<Lexeme>, l: Expr, rs: seq<Lexeme>, r: Expr, w: Words)
    requires GPrimary(ls, l) && GPrimary(rs, r) && |ls| > 0
    ensures GOr(ls + [Lexeme(OrWord, w.orWord)] + rs, Or(l, r))
  {
    var all, k := ls + [Lexeme(OrWord, w.orWord)] + rs, |ls|;
    PrimaryIsAny(ls, l);
    PrimaryIsAny(rs, r);
    assert all[..k] == ls && all[k + 1..] == rs && all[k].kind == OrWord;
  }

  lemma {:induction false} PrintDerives(e: Expr, w: Words)
    requires Printable(e)
    ensures GPrimary(Print(e, w), e) && |Print(e, w)| > 0
  {
    match e
    case Pred(p) =>
      PredicateDerives(p, w);
    case Not(x) =>
      PrintDerives(x, w);
      NegationDerives(Print(x, w), x, w);
      EnclosedDerives([Lexeme(NotWord, w.notWord)] + Print(x, w), e);
    case And(l, r) =>
      PrintDerives(l, w);
      PrintDerives(r, w);
      ConjunctionDerives(Print(l, w), l, Print(r, w), r, w);
      EnclosedDerives(Print(l, w) + [Lexeme(AndWord, w.andWord)] + Print(r, w), e);
    case Or(l, r) =>
      PrintDerives(l, w);
      PrintDerives(r, w);
      DisjunctionDerives(Print(l, w), l, Print(r, w), r, w);
      EnclosedDerives(Print(l, w) + [Lexeme(OrWord, w.orWord)] + Print(r, w), e);
  }

  /** Printing any tree that the parser returned, with any spelling of the words, and parsing it again gives the same tree. */
  lemma PrintThenParse(ts: seq<Lexeme>, e: Expr, w: Words)
    requires ParseAll(ts) == Good(e, |ts|)
    ensures Printable(e) && ParseAll(Print(e, w)) == Good(e, |Print(e, w)|)
  {
    ParserMatchesGrammar(ts, e);
    OrIsPrintable(ts, e);
    PrintDerives(e, w);
    PrimaryIsAny(Print(e, w), e);
    ParserMatchesGrammar(Print(e, w), e);
  }
}
