/**
 The logic of search expressions (frontend/src/searchExpression.ts): connectives, negated
 membership, orderings and text search mean what their names say, for every host and every item.
 */
module EvaluationLaws {
  import opened Options
  import opened Texts
  import opened Expressions
  import opened Evaluation
  import Glob

  // ---- connectives ---------------------------------------------------------------------------------------

  lemma NegationIsOpposite(host: Host, f: Fields, e: Expr)
    ensures Evaluate(host, f, Or(e, Not(e))) && !Evaluate(host, f, And(e, Not(e)))
    ensures Evaluate(host, f, Not(Not(e))) <==> Evaluate(host, f, e)
  {
    assert Evaluate(host, f, Not(e)) <==> !Evaluate(host, f, e);
  }

  lemma DeMorgan(host: Host, f: Fields, a: Expr, b: Expr)
    ensures Evaluate(host, f, Not(And(a, b))) <==> Evaluate(host, f, Or(Not(a), Not(b)))
    ensures Evaluate(host, f, Not(Or(a, b))) <==> Evaluate(host, f, And(Not(a), Not(b)))
  {
    assert Evaluate(host, f, And(a, b)) <==> !(Evaluate(host, f, Not(a)) || Evaluate(host, f, Not(b)));
    assert Evaluate(host, f, Or(a, b)) <==> !(Evaluate(host, f, Not(a)) && Evaluate(host, f, Not(b)));
  }

  /** The alternatives of an expression: each is a list of predicates and negations that hold together. */
  function Branches(e: Expr): seq<seq<Expr>> {
    match e
    case Pred(_) => [[e]]
    case Not(_) => [[e]]
    case Or(l, r) => Branches(l) + Branches(r)
    case And(l, r) => Products(Branches(l), Branches(r))
  }

  /** Every list of the first joined with every list of the second. */
  function Products(xs: seq<seq<Expr>>, ys: seq<seq<Expr>>): seq<seq<Expr>> {
    if xs == [] then [] else Extended(xs[0], ys) + Products(xs[1..], ys)
  }

  function Extended(x: seq<Expr>, ys: seq<seq<Expr>>): seq<seq<Expr>> {
    seq(|ys|, i requires 0 <= i < |ys| => x + ys[i])
  }

  ghost predicate AllOf(b: seq<Expr>, holds: Expr -> bool) {
    forall k | 0 <= k < |b| :: holds(b[k])
  }

  /** Some alternative has only parts that hold. */
  ghost predicate SomeAll(bs: seq<seq<Expr>>, holds: Expr -> bool) {
    exists i | 0 <= i < |bs| :: AllOf(bs[i], holds)
  }

  function Truth(host: Host, f: Fields): Expr -> bool {
    x => Evaluate(host, f, x)
  }

  lemma SomeAllConcat(xs: seq<seq<Expr>>, ys: seq<seq<Expr>>, holds: Expr -> bool)
    ensures SomeAll(xs + ys, holds) <==> SomeAll(xs, holds) || SomeAll(ys, holds)
  {
    var all := xs + ys;
    if i :| 0 <= i < |xs| && AllOf(xs[i], holds) {
      assert all[i] == xs[i];
    }
    if i :| 0 <= i < |ys| && AllOf(ys[i], holds) {
      assert all[|xs| + i] == ys[i];
    }
    if i :| 0 <= i < |all| && AllOf(all[i], holds) {
      assert i < |xs| ==> AllOf(xs[i], holds);
      assert i >= |xs| ==> AllOf(ys[i - |xs|], holds);
    }
  }

  lemma AllOfConcat(x: seq<Expr>, y: seq<Expr>, holds: Expr -> bool)
    ensures AllOf(x + y, holds) <==> AllOf(x, holds) && AllOf(y, holds)
  {
    if AllOf(x + y, holds) {
      assert forall k | 0 <= k < |x| :: (x + y)[k] == x[k];
      assert forall k | 0 <= k < |y| :: (x + y)[|x| + k] == y[k];
    }
  }

  lemma SomeAllExtended(x: seq<Expr>, ys: seq<seq<Expr>>, holds: Expr -> bool)
    ensures SomeAll(Extended(x, ys), holds) <==> AllOf(x, holds) && SomeAll(ys, holds)
  {
    var all := Extended(x, ys);
    forall i | 0 <= i < |ys|
      ensures AllOf(all[i], holds) <==> AllOf(x, holds) && AllOf(ys[i], holds)
    {
      AllOfConcat(x, ys[i], holds);
    }
    if i :| 0 <= i < |all| && AllOf(all[i], holds) {
      assert AllOf(ys[i], holds);
    }
    if AllOf(x, holds) {
      if i :| 0 <= i < |ys| && AllOf(ys[i], holds) {
        assert AllOf(all[i], holds);
      }
    }
  }

  lemma {:induction false} SomeAllProducts(xs: seq<seq<Expr>>, ys: seq<seq<Expr>>, holds: Expr -> bool)
    ensures SomeAll(Products(xs, ys), holds) <==> SomeAll(xs, holds) && SomeAll(ys, holds)
  {
    if xs != [] {
      SomeAllProducts(xs[1..], ys, holds);
      SomeAllConcat(Extended(xs[0], ys), Products(xs[1..], ys), holds);
      SomeAllExtended(xs[0], ys, holds);
      assert xs == [xs[0]] + xs[1..];
      SomeAllConcat([xs[0]], xs[1..], holds);
      assert SomeAll([xs[0]], holds) <==> AllOf(xs[0], holds);
    }
  }

  /** An expression is true exactly when all parts of one of its alternatives are true. */
  lemma {:induction false} BranchesMeaning(host: Host, f: Fields, e: Expr)
    ensures Evaluate(host, f, e) <==> SomeAll(Branches(e), Truth(host, f))
  {
    var holds := Truth(host, f);
    match e
    case Pred(_) => assert AllOf(Branches(e)[0], holds) <==> holds([e][0]);
    case Not(_) => assert AllOf(Branches(e)[0], holds) <==> holds([e][0]);
    case Or(l, r) =>
      BranchesMeaning(host, f, l);
      BranchesMeaning(host, f, r);
      SomeAllConcat(Branches(l), Branches(r), holds);
    case And(l, r) =>
      BranchesMeaning(host, f, l);
      BranchesMeaning(host, f, r);
      SomeAllProducts(Branches(l), Branches(r), holds);
  }

  // ---- membership -----------------------------------------------------------------------------------------

  /** The item has the field and, if the field names one rule, that rule. */
  predicate HasField(f: Fields, field: string) {
    FieldValues(f, field).Some? && (KeyedRule(field).Some? ==> FieldValues(f, field).value != [])
  }

  /** `not in` is the opposite of `in` exactly on the items that have the field. */
  lemma NotInIsOppositeIff(host: Host, f: Fields, field: string, values: seq<ListValue>)
    ensures (Evaluate(host, f, Pred(Membership(field, true, values))) <==> !Evaluate(host, f, Pred(Membership(field, false, values))))
            <==> HasField(f, field)
  {
    CanonicalFieldIdempotent(field);
    assert Evaluate(host, f, Pred(Membership(field, true, values))) <==> PredicateMatches(host, f, Membership(field, true, values));
    assert Evaluate(host, f, Pred(Membership(field, false, values))) <==> PredicateMatches(host, f, Membership(field, false, values));
  }

  // ---- comparisons ----------------------------------------------------------------------------------------

  /** Equality and inequality with one value are opposites. */
  lemma EqualityIsOpposite(host: Host, actual: Value, expected: string)
    ensures CompareValue(host, actual, Eq, expected) <==> !CompareValue(host, actual, Ne, expected)
  {
  }

  function Reading(host: Host, actual: Value): Option<real> {
    if actual.Number? then Some(actual.number) else host.readTimestamp(actual.text)
  }

  /** The signs that the difference of the readings may have. */
  function Signs(operator: Comparator): set<int>
    requires !operator.Eq? && !operator.Ne?
  {
    match operator
    case Lt => {-1}
    case Le => {-1, 0}
    case Gt => {1}
    case Ge => {0, 1}
  }

  function Sign(x: real): int {
    if x < 0.0 then -1 else if x > 0.0 then 1 else 0
  }

  /** An ordering holds exactly when both sides can be read and their difference has a sign it allows. */
  lemma OrderingMeans(host: Host, actual: Value, operator: Comparator, expected: string)
    requires !operator.Eq? && !operator.Ne?
    ensures CompareValue(host, actual, operator, expected) <==>
            var a, b := Reading(host, actual), host.readTimestamp(expected);
            a.Some? && b.Some? && Sign(a.value - b.value) in Signs(operator)
  {
  }

  /** Exactly one of `<` and `>=`, and exactly one of `>` and `<=`, holds if and only if both sides can be read. */
  lemma OrderingsAreOppositeIff(host: Host, actual: Value, expected: string)
    ensures var readable := Reading(host, actual).Some? && host.readTimestamp(expected).Some?;
            && ((CompareValue(host, actual, Lt, expected) <==> !CompareValue(host, actual, Ge, expected)) <==> readable)
            && ((CompareValue(host, actual, Gt, expected) <==> !CompareValue(host, actual, Le, expected)) <==> readable)
  {
    OrderingMeans(host, actual, Lt, expected);
    OrderingMeans(host, actual, Ge, expected);
    OrderingMeans(host, actual, Gt, expected);
    OrderingMeans(host, actual, Le, expected);
  }

  /** A comparison of an ordinary field holds exactly when it holds of one of the field's values. */
  lemma ComparisonIsSome(host: Host, f: Fields, field: string, operator: Comparator, expected: string)
    requires KeyedRule(field).None? && CanonicalField(field) != "vps.rules"
    ensures Evaluate(host, f, Pred(Comparison(field, operator, expected))) <==>
            FieldValues(f, field).Some? && exists v | v in FieldValues(f, field).value :: CompareValue(host, v, operator, expected)
  {
    assert Evaluate(host, f, Pred(Comparison(field, operator, expected))) <==> PredicateMatches(host, f, Comparison(field, operator, expected));
  }

  /** Spellings of the same field are interchangeable. */
  lemma AliasesAgree(host: Host, f: Fields, a: string, b: string, operator: Comparator, expected: string, negated: bool, values: seq<ListValue>)
    requires CanonicalField(a) == CanonicalField(b)
    ensures PredicateMatches(host, f, Comparison(a, operator, expected)) <==> PredicateMatches(host, f, Comparison(b, operator, expected))
    ensures PredicateMatches(host, f, Membership(a, negated, values)) <==> PredicateMatches(host, f, Membership(b, negated, values))
  {
    assert FieldValues(f, a) == FieldValues(f, b) && KeyedRule(a) == KeyedRule(b);
  }

  // ---- text search ------------------------------------------------------------------------------------------

  ghost predicate OccursAt(value: string, part: string, k: int) {
    0 <= k <= |value| - |part| && value[k..k + |part|] == part
  }

  lemma OccursInFront(value: string, part: string)
    ensures OccursAt(value, part, 0) <==> part <= value
  {
  }

  lemma OccursLater(value: string, part: string, k: int)
    requires value != "" && k > 0
    ensures OccursAt(value, part, k) <==> OccursAt(value[1..], part, k - 1)
  {
    if k <= |value| - |part| {
      assert value[1..][k - 1..k - 1 + |part|] == value[k..k + |part|];
    }
  }

  /** A bare term without wildcards is found exactly where its lower-case text occurs. */
  lemma {:induction false} ContainsMeans(value: string, part: string)
    ensures Contains(value, part) <==> exists k :: OccursAt(value, part, k)
  {
    OccursInFront(value, part);
    if value != "" && !(part <= value) {
      ContainsMeans(value[1..], part);
      forall k | k > 0
        ensures OccursAt(value, part, k) <==> OccursAt(value[1..], part, k - 1)
      {
        OccursLater(value, part, k);
      }
      if k :| OccursAt(value[1..], part, k) {
        assert OccursAt(value, part, k + 1);
      }
    }
  }

  /** A bare term without wildcards is true exactly when its text occurs, ignoring case, in one of the item's texts. */
  lemma BareMeans(host: Host, f: Fields, term: string)
    requires !HasGlob(host.lower(term))
    ensures Evaluate(host, f, Pred(Bare(term))) <==>
            exists v | v in f.all :: exists k :: OccursAt(host.lower(v), host.lower(term), k)
  {
    forall v | v in f.all
      ensures ValueMatches(host, v, term, true) <==> exists k :: OccursAt(host.lower(v), host.lower(term), k)
    {
      ContainsMeans(host.lower(v), host.lower(term));
    }
    assert Evaluate(host, f, Pred(Bare(term))) <==> PredicateMatches(host, f, Bare(term));
  }

  /** A text without a star equals a value exactly when it matches it as a pattern, ignoring case. */
  lemma EqualityMeans(host: Host, text: string, expected: string)
    requires '*' !in host.lower(text)
    ensures CompareValue(host, Text(text), Eq, expected) <==> Glob.Matches(host.lower(text), host.lower(expected))
  {
    var v, p := host.lower(text), host.lower(expected);
    if HasGlob(p) {
      Glob.ExactIffNoStar(v);
    } else {
      Glob.LiteralMatches(v, p);
    }
  }

  /** `in` holds of an ordinary field exactly when one of its values is in the list: equal to a literal, or matched by a pattern. */
  lemma InMeans(host: Host, f: Fields, field: string, values: seq<ListValue>)
    requires KeyedRule(field).None? && CanonicalField(field) != "vps.rules" && FieldValues(f, field).Some?
    ensures Evaluate(host, f, Pred(Membership(field, false, values))) <==>
            exists v | v in FieldValues(f, field).value :: exists w | w in values ::
              if w.Literal? then CompareValue(host, Text(Show(host, v)), Eq, w.value) else host.regexMatches(w.value, Show(host, v))
  {
    assert Evaluate(host, f, Pred(Membership(field, false, values))) <==> PredicateMatches(host, f, Membership(field, false, values));
    assert forall v: Value, w: ListValue :: ListValueMatches(host, Show(host, v), w) <==>
      if w.Literal? then CompareValue(host, Text(Show(host, v)), Eq, w.value) else host.regexMatches(w.value, Show(host, v));
  }
}
