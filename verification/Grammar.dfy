/**
 The grammar of search expressions: or binds weakest, then and (written or by juxtaposition),
 then not, then primaries. The parser returns a tree exactly when the grammar derives it from
 the whole token list; so the grammar is unambiguous, and printed trees parse back to themselves.
 */
module Grammar {
  import opened Options
  import opened Tokenizer
  import opened Expressions
  import opened Parsing

  // ---- derivations -------------------------------------------------------------------------

  /** value, value, ... , value ] */
  ghost predicate GItems(ts: seq<Lexeme>, values: seq<ListValue>) {
    && values != [] && |ts| >= 2 && IsListValue(ts, 0) && ListValueAt(ts, 0) == values[0]
    && if |values| == 1 then |ts| == 2 && ts[1].kind == RightBracket
       else ts[1].kind == CommaSign && GItems(ts[2..], values[1..])
  }

  ghost predicate GList(ts: seq<Lexeme>, values: seq<ListValue>) {
    |ts| > 0 && ts[0].kind == LeftBracket && GItems(ts[1..], values)
  }

  ghost predicate GPredicate(ts: seq<Lexeme>, p: Predicate) {
    && |ts| > 0 && ts[0].kind == TermValue
    && var field := CanonicalField(ts[0].value);
       || (|ts| == 1 && p == PredicateFromTerm(ts[0].value))
       || (|ts| == 3 && OperatorAt(ts, 1).Some? && IsScalar(ts, 2) && p == Comparison(field, OperatorAt(ts, 1).value, ts[2].value))
       || (p.Membership? && p.field == field && !p.negated && IsKind(ts, 1, InWord) && GList(ts[2..], p.values))
       || (p.Membership? && p.field == field && p.negated && IsKind(ts, 1, NotWord) && IsKind(ts, 2, InWord) && GList(ts[3..], p.values))
  }

  ghost predicate GPrimary(ts: seq<Lexeme>, e: Expr)
    decreases |ts|, 0
  {
    || (e.Pred? && GPredicate(ts, e.pred))
    || (|ts| >= 2 && ts[0].kind == LeftParen && ts[|ts| - 1].kind == RightParen && GOr(ts[1..|ts| - 1], e))
  }

  ghost predicate GNot(ts: seq<Lexeme>, e: Expr)
    decreases |ts|, 1
  {
    || GPrimary(ts, e)
    || (e.Not? && |ts| > 0 && ts[0].kind == NotWord && GNot(ts[1..], e.expression))
  }

  ghost predicate GAnd(ts: seq<Lexeme>, e: Expr)
    decreases |ts|, 2
  {
    || GNot(ts, e)
    || (e.And? && exists k | 0 < k < |ts| :: GAnd(ts[..k], e.left) && GConjunct(ts[k..], e.right))
  }

  /** A further conjunct, with or without the word in front. */
  ghost predicate GConjunct(ts: seq<Lexeme>, e: Expr)
    decreases |ts|, 2
  {
    GNot(ts, e) || (|ts| > 0 && ts[0].kind == AndWord && GNot(ts[1..], e))
  }

  ghost predicate GOr(ts: seq<Lexeme>, e: Expr)
    decreases |ts|, 3
  {
    || GAnd(ts, e)
    || (e.Or? && exists k | 0 < k < |ts| :: ts[k].kind == OrWord && GOr(ts[..k], e.left) && GAnd(ts[k + 1..], e.right))
  }

  // ---- every tree returned is derived ------------------------------------------------------

  lemma {:induction false} ItemsSound(ts: seq<Lexeme>, pos: nat, acc: seq<ListValue>)
    requires pos <= |ts| && ParseItems(ts, pos, acc).value.Some?
    ensures var r := ParseItems(ts, pos, acc);
            GItems(ts[pos..r.pos], r.value.value[|acc|..])
    decreases |ts| - pos
  {
    var r := ParseItems(ts, pos, acc);
    var more := acc + [ListValueAt(ts, pos)];
    var seg, values := ts[pos..r.pos], r.value.value[|acc|..];
    if IsKind(ts, pos + 1, CommaSign) {
      ItemsSound(ts, pos + 2, more);
      assert seg[2..] == ts[pos + 2..r.pos];
      assert values[1..] == r.value.value[|more|..];
      assert values[0] == r.value.value[|acc|] == ListValueAt(ts, pos);
    } else {
      assert values == [ListValueAt(ts, pos)];
    }
  }

  lemma ListSound(ts: seq<Lexeme>, pos: nat)
    requires pos <= |ts| && ParseList(ts, pos).value.Some?
    ensures GList(ts[pos..ParseList(ts, pos).pos], ParseList(ts, pos).value.value)
  {
    var r := ParseItems(ts, pos + 1, []);
    ItemsSound(ts, pos + 1, []);
    assert ts[pos..r.pos][1..] == ts[pos + 1..r.pos];
    assert r.value.value[0..] == r.value.value;
  }

  lemma MembershipSound(ts: seq<Lexeme>, pos: nat, from: nat, negated: bool)
    requires pos < from <= |ts| && ts[pos].kind == TermValue && ParseList(ts, from).value.Some?
    requires if negated then from == pos + 3 && IsKind(ts, pos + 1, NotWord) && IsKind(ts, pos + 2, InWord)
             else from == pos + 2 && IsKind(ts, pos + 1, InWord)
    ensures var r := ParseList(ts, from);
            GPredicate(ts[pos..r.pos], Membership(CanonicalField(ts[pos].value), negated, r.value.value))
  {
    var seg := ts[pos..ParseList(ts, from).pos];
    ListSound(ts, from);
    assert seg[from - pos..] == ts[from..ParseList(ts, from).pos];
  }

  lemma PredicateSound(ts: seq<Lexeme>, pos: nat)
    requires pos < |ts| && ts[pos].kind == TermValue && ParsePredicate(ts, pos + 1, ts[pos].value).value.Some?
    ensures var r := ParsePredicate(ts, pos + 1, ts[pos].value); GPredicate(ts[pos..r.pos], r.value.value)
  {
    if OperatorAt(ts, pos + 1).Some? {
      assert OperatorAt(ts[pos..pos + 3], 1) == OperatorAt(ts, pos + 1);
    } else if IsKind(ts, pos + 1, InWord) {
      MembershipSound(ts, pos, pos + 2, false);
    } else if IsKind(ts, pos + 1, NotWord) && IsKind(ts, pos + 2, InWord) {
      MembershipSound(ts, pos, pos + 3, true);
    }
  }

  lemma {:induction false} PrimarySound(ts: seq<Lexeme>, pos: nat)
    requires pos <= |ts| && ParsePrimary(ts, pos).value.Some?
    ensures GPrimary(ts[pos..ParsePrimary(ts, pos).pos], ParsePrimary(ts, pos).value.value)
    decreases |ts| - pos, 0
  {
    var r := ParsePrimary(ts, pos);
    var seg := ts[pos..r.pos];
    if ts[pos].kind == TermValue {
      PredicateSound(ts, pos);
    } else {
      OrSound(ts, pos + 1);
      assert seg[1..|seg| - 1] == ts[pos + 1..ParseOr(ts, pos + 1).pos];
    }
  }

  lemma {:induction false} NotSound(ts: seq<Lexeme>, pos: nat)
    requires pos <= |ts| && ParseNot(ts, pos).value.Some?
    ensures GNot(ts[pos..ParseNot(ts, pos).pos], ParseNot(ts, pos).value.value)
    decreases |ts| - pos, 1
  {
    if IsKind(ts, pos, NotWord) {
      NotSound(ts, pos + 1);
      assert ts[pos..ParseNot(ts, pos).pos][1..] == ts[pos + 1..ParseNot(ts, pos).pos];
    } else {
      PrimarySound(ts, pos);
    }
  }

  /** A derived conjunction and a further conjunct, with or without the word between, are a conjunction. */
  lemma AndExtends(ts: seq<Lexeme>, a: nat, m: nat, from: nat, b: nat, left: Expr, right: Expr)
    requires a < m <= from <= b <= |ts| && m < b && (from == m || (from == m + 1 && ts[m].kind == AndWord))
    requires GAnd(ts[a..m], left) && GNot(ts[from..b], right)
    ensures GAnd(ts[a..b], And(left, right))
  {
    var seg, k := ts[a..b], m - a;
    assert seg[..k] == ts[a..m] && seg[k..] == ts[m..b];
    assert ts[m..b][from - m..] == ts[from..b];
    assert GConjunct(seg[k..], right);
  }

  lemma {:induction false} AndRestSound(ts: seq<Lexeme>, a: nat, acc: Parsed<Expr>)
    requires a < acc.pos <= |ts| && acc.value.Some? && acc.error.None?
    requires GAnd(ts[a..acc.pos], acc.value.value) && AndRest(ts, acc).value.Some?
    ensures GAnd(ts[a..AndRest(ts, acc).pos], AndRest(ts, acc).value.value)
    decreases |ts| - acc.pos, 2
  {
    if IsKind(ts, acc.pos, AndWord) || StartsPrimary(ts, acc.pos) {
      var from := if IsKind(ts, acc.pos, AndWord) then acc.pos + 1 else acc.pos;
      var right := ParseNot(ts, from);
      NotSound(ts, from);
      AndExtends(ts, a, acc.pos, from, right.pos, acc.value.value, right.value.value);
      AndRestSound(ts, a, Good(And(acc.value.value, right.value.value), right.pos));
    }
  }

  lemma {:induction false} AndSound(ts: seq<Lexeme>, pos: nat)
    requires pos <= |ts| && ParseAnd(ts, pos).value.Some?
    ensures GAnd(ts[pos..ParseAnd(ts, pos).pos], ParseAnd(ts, pos).value.value)
    decreases |ts| - pos, 3
  {
    NotSound(ts, pos);
    AndRestSound(ts, pos, ParseNot(ts, pos));
  }

  lemma {:induction false} OrRestSound(ts: seq<Lexeme>, a: nat, acc: Parsed<Expr>)
    requires a < acc.pos <= |ts| && acc.value.Some? && acc.error.None?
    requires GOr(ts[a..acc.pos], acc.value.value) && OrRest(ts, acc).value.Some?
    ensures GOr(ts[a..OrRest(ts, acc).pos], OrRest(ts, acc).value.value)
    decreases |ts| - acc.pos, 4
  {
    if IsKind(ts, acc.pos, OrWord) {
      var right := ParseAnd(ts, acc.pos + 1);
      AndSound(ts, acc.pos + 1);
      var seg := ts[a..right.pos];
      var k := acc.pos - a;
      assert seg[..k] == ts[a..acc.pos] && seg[k + 1..] == ts[acc.pos + 1..right.pos];
      var next := Good(Or(acc.value.value, right.value.value), right.pos);
      assert GOr(seg, next.value.value);
      OrRestSound(ts, a, next);
    }
  }

  /** A tree that the parser returns is derived by the grammar from exactly the consumed tokens. */
  lemma {:induction false} OrSound(ts: seq<Lexeme>, pos: nat)
    requires pos <= |ts| && ParseOr(ts, pos).value.Some?
    ensures GOr(ts[pos..ParseOr(ts, pos).pos], ParseOr(ts, pos).value.value)
    decreases |ts| - pos, 5
  {
    AndSound(ts, pos);
    OrRestSound(ts, pos, ParseAnd(ts, pos));
  }

  lemma SliceOfSlice<T>(s: seq<T>, a: nat, b: nat, i: nat, j: nat)
    requires a <= b <= |s| && i <= j <= b - a
    ensures s[a..b][i..j] == s[a + i..a + j]
  {
    var x, y := s[a..b][i..j], s[a + i..a + j];
    assert |x| == |y| && forall k | 0 <= k < |x| :: x[k] == y[k];
  }

  // ---- every derived tree is returned --------------------------------------------------------

  lemma {:induction false} ItemsComplete(ts: seq<Lexeme>, pos: nat, end: nat, acc: seq<ListValue>, values: seq<ListValue>)
    requires pos <= end <= |ts| && GItems(ts[pos..end], values)
    ensures ParseItems(ts, pos, acc) == Good(acc + values, end)
    decreases |values|
  {
    var seg := ts[pos..end];
    var more := acc + [values[0]];
    assert ListValueAt(ts, pos) == values[0] && ts[pos + 1] == seg[1];
    if |values| == 1 {
      assert more == acc + values;
    } else {
      assert seg[2..] == ts[pos + 2..end];
      ItemsComplete(ts, pos + 2, end, more, values[1..]);
      assert more + values[1..] == acc + values;
    }
  }

  lemma ListComplete(ts: seq<Lexeme>, pos: nat, end: nat, values: seq<ListValue>)
    requires pos <= end <= |ts| && GList(ts[pos..end], values)
    ensures ParseList(ts, pos) == Good(values, end)
  {
    assert ts[pos..end][1..] == ts[pos + 1..end];
    ItemsComplete(ts, pos + 1, end, [], values);
    assert [] + values == values;
  }

  /** What follows does not turn a bare term into a comparison or a membership test. */
  ghost predicate EndsPrimary(ts: seq<Lexeme>, b: nat) {
    OperatorAt(ts, b).None? && !IsKind(ts, b, InWord) && !(IsKind(ts, b, NotWord) && IsKind(ts, b + 1, InWord))
  }

  /** What follows does not continue a conjunction either. */
  ghost predicate EndsAnd(ts: seq<Lexeme>, b: nat) {
    EndsPrimary(ts, b) && !IsKind(ts, b, AndWord) && !StartsPrimary(ts, b)
  }

  lemma PredicateComplete(ts: seq<Lexeme>, a: nat, b: nat, p: Predicate)
    requires a <= b <= |ts| && GPredicate(ts[a..b], p) && EndsPrimary(ts, b)
    ensures a < b && ts[a].kind == TermValue && ParsePredicate(ts, a + 1, ts[a].value) == Good(p, b)
  {
    var seg := ts[a..b];
    assert seg[0] == ts[a];
    if p.Membership? && IsKind(seg, 1, InWord) && GList(seg[2..], p.values) {
      assert seg[2..] == ts[a + 2..b];
      ListComplete(ts, a + 2, b, p.values);
    } else if p.Membership? && IsKind(seg, 1, NotWord) && IsKind(seg, 2, InWord) && GList(seg[3..], p.values) {
      assert seg[3..] == ts[a + 3..b];
      ListComplete(ts, a + 3, b, p.values);
    }
  }

  /** How a derived negation or primary begins. */
  lemma {:induction false} NotBegins(ts: seq<Lexeme>, e: Expr)
    requires GNot(ts, e)
    ensures StartsPrimary(ts, 0) && !(IsKind(ts, 0, NotWord) && IsKind(ts, 1, InWord))
  {
    if !GPrimary(ts, e) {
      NotBegins(ts[1..], e.expression);
    }
  }

  lemma {:induction false} PrimaryComplete(ts: seq<Lexeme>, a: nat, b: nat, e: Expr)
    requires a <= b <= |ts| && GPrimary(ts[a..b], e) && EndsPrimary(ts, b)
    ensures ParsePrimary(ts, a) == Good(e, b) && !IsKind(ts, a, NotWord)
    decreases b - a, 0
  {
    var seg := ts[a..b];
    if e.Pred? && GPredicate(seg, e.pred) {
      PredicateComplete(ts, a, b, e.pred);
    } else {
      SliceOfSlice(ts, a, b, 1, b - a - 1);
      OrComplete(ts, a + 1, b - 1, e);
    }
  }

  lemma {:induction false} NotComplete(ts: seq<Lexeme>, a: nat, b: nat, e: Expr)
    requires a <= b <= |ts| && GNot(ts[a..b], e) && EndsPrimary(ts, b)
    ensures ParseNot(ts, a) == Good(e, b)
    decreases b - a, 1
  {
    if GPrimary(ts[a..b], e) {
      PrimaryComplete(ts, a, b, e);
    } else {
      assert ts[a..b][1..] == ts[a + 1..b];
      NotComplete(ts, a + 1, b, e.expression);
    }
  }

  /** In front of a juxtaposed conjunct a term is complete. */
  lemma JuxtaposedEnds(ts: seq<Lexeme>, k: nat, b: nat, e: Expr)
    requires k < b <= |ts| && GNot(ts[k..b], e) && EndsPrimary(ts, b)
    ensures EndsPrimary(ts, k) && StartsPrimary(ts, k) && !IsKind(ts, k, AndWord)
  {
    NotBegins(ts[k..b], e);
    if IsKind(ts, k, NotWord) {
      assert !GPrimary(ts[k..b], e);
      assert ts[k..b][1..] == ts[k + 1..b];
      NotBegins(ts[k + 1..b], e.expression);
    }
  }

  /** A further conjunct is parsed as such, with or without the word in front. */
  lemma {:induction false} ConjunctComplete(ts: seq<Lexeme>, k: nat, b: nat, left: Expr, right: Expr)
    requires k < b <= |ts| && GConjunct(ts[k..b], right) && EndsPrimary(ts, b)
    ensures EndsPrimary(ts, k)
    ensures AndRest(ts, Good(left, k)) == AndRest(ts, Good(And(left, right), b))
    decreases b - k, 2
  {
    if GNot(ts[k..b], right) {
      JuxtaposedEnds(ts, k, b, right);
      NotComplete(ts, k, b, right);
    } else {
      assert ts[k..b][1..] == ts[k + 1..b];
      NotComplete(ts, k + 1, b, right);
    }
  }

  lemma {:induction false} AndPrefix(ts: seq<Lexeme>, a: nat, b: nat, e: Expr)
    requires a <= b <= |ts| && GAnd(ts[a..b], e) && EndsPrimary(ts, b)
    ensures ParseAnd(ts, a) == AndRest(ts, Good(e, b))
    decreases b - a, 2
  {
    var seg := ts[a..b];
    if GNot(seg, e) {
      NotComplete(ts, a, b, e);
    } else {
      var k :| 0 < k < |seg| && GAnd(seg[..k], e.left) && GConjunct(seg[k..], e.right);
      assert seg[..k] == ts[a..a + k] && seg[k..] == ts[a + k..b];
      ConjunctComplete(ts, a + k, b, e.left, e.right);
      AndPrefix(ts, a, a + k, e.left);
    }
  }

  lemma {:induction false} AndComplete(ts: seq<Lexeme>, a: nat, b: nat, e: Expr)
    requires a <= b <= |ts| && GAnd(ts[a..b], e) && EndsAnd(ts, b)
    ensures ParseAnd(ts, a) == Good(e, b)
    decreases b - a, 3
  {
    AndPrefix(ts, a, b, e);
  }

  /** A derived disjunction that is no conjunction falls apart at an OR. */
  lemma OrSplit(seg: seq<Lexeme>, e: Expr) returns (k: nat)
    requires GOr(seg, e) && !GAnd(seg, e)
    ensures 0 < k < |seg| && seg[k].kind == OrWord && e.Or? && GOr(seg[..k], e.left) && GAnd(seg[k + 1..], e.right)
  {
    k :| 0 < k < |seg| && seg[k].kind == OrWord && GOr(seg[..k], e.left) && GAnd(seg[k + 1..], e.right);
  }

  lemma SplitSlice(ts: seq<Lexeme>, a: nat, b: nat, k: nat)
    requires a <= b <= |ts| && k < b - a
    ensures ts[a..b][..k] == ts[a..a + k] && ts[a..b][k + 1..] == ts[a + k + 1..b] && ts[a..b][k] == ts[a + k]
  {
  }

  lemma {:induction false} OrPrefix(ts: seq<Lexeme>, a: nat, b: nat, e: Expr)
    requires a <= b <= |ts| && GOr(ts[a..b], e) && EndsAnd(ts, b)
    ensures ParseOr(ts, a) == OrRest(ts, Good(e, b))
    decreases b - a, 4
  {
    if GAnd(ts[a..b], e) {
      AndComplete(ts, a, b, e);
    } else {
      var k := OrSplit(ts[a..b], e);
      SplitSlice(ts, a, b, k);
      var m := a + k;
      OrPrefix(ts, a, m, e.left);
      AndComplete(ts, m + 1, b, e.right);
      OrRestStep(ts, m, b, e.left, e.right);
    }
  }

  lemma OrRestStep(ts: seq<Lexeme>, k: nat, b: nat, left: Expr, right: Expr)
    requires k < |ts| && ts[k].kind == OrWord && b <= |ts| && ParseAnd(ts, k + 1) == Good(right, b)
    ensures OrRest(ts, Good(left, k)) == OrRest(ts, Good(Or(left, right), b))
  {
  }

  lemma {:induction false} OrComplete(ts: seq<Lexeme>, a: nat, b: nat, e: Expr)
    requires a <= b <= |ts| && GOr(ts[a..b], e) && EndsAnd(ts, b) && !IsKind(ts, b, OrWord)
    ensures ParseOr(ts, a) == Good(e, b)
    decreases b - a, 5
  {
    OrPrefix(ts, a, b, e);
  }

  /** The parser returns a tree for a token list exactly when the grammar derives that tree. */
  lemma ParserMatchesGrammar(ts: seq<Lexeme>, e: Expr)
    ensures ParseAll(ts) == Good(e, |ts|) <==> GOr(ts, e)
  {
    assert ts[0..|ts|] == ts;
    if GOr(ts, e) {
      OrComplete(ts, 0, |ts|, e);
    }
    if ParseAll(ts) == Good(e, |ts|) {
      OrSound(ts, 0);
    }
  }

  lemma GrammarIsUnambiguous(ts: seq<Lexeme>, e: Expr, e': Expr)
    requires GOr(ts, e) && GOr(ts, e')
    ensures e == e'
  {
    ParserMatchesGrammar(ts, e);
    ParserMatchesGrammar(ts, e');
  }
}
