/**
 The static check on schedule event expressions (frontend/src/eventExpression.ts) and what it
 guarantees about the evaluation of the expressions it accepts.
 */
module EventExpressions {
  import opened Options
  import opened Texts
  import opened Tokenizer
  import opened Expressions
  import opened Parsing
  import opened Grammar
  import opened Printing
  import opened Evaluation
  import opened EvaluationLaws

  /** The generated lists of immutable alert fields, categories and severities. */
  datatype Contract = Contract(fields: set<string>, categories: set<string>, severities: set<string>)

  const CATEGORY := "alert.category:"
  const SEVERITY := "alert.severity:"

  predicate IsLifecycle(event: string) {
    event == "alert.triggered" || event == "alert.resolved"
  }

  predicate AllowedEvent(c: Contract, event: string) {
    if IsLifecycle(event) then true
    else if StartsWith(event, CATEGORY) then event[|CATEGORY|..] in c.categories
    else StartsWith(event, SEVERITY) && event[|SEVERITY|..] in c.severities
  }

  predicate UnsupportedPredicate(c: Contract, p: Predicate) {
    match p
    case Bare(_) => true
    case Untagged => true
    case Event(value) => !AllowedEvent(c, AsciiLower(value))
    case Comparison(field, _, _) => AsciiLower(field) !in c.fields
    case Membership(field, _, _) => AsciiLower(field) !in c.fields
  }

  predicate ContainsUnsupported(c: Contract, e: Expr) {
    match e
    case Pred(p) => UnsupportedPredicate(c, p)
    case Not(x) => ContainsUnsupported(c, x)
    case And(l, r) => ContainsUnsupported(c, l) || ContainsUnsupported(c, r)
    case Or(l, r) => ContainsUnsupported(c, l) || ContainsUnsupported(c, r)
  }

  predicate EveryBranchAnchored(e: Expr) {
    match e
    case Pred(p) => p.Event? && IsLifecycle(AsciiLower(p.value))
    case Not(_) => false
    case And(l, r) => EveryBranchAnchored(l) || EveryBranchAnchored(r)
    case Or(l, r) => EveryBranchAnchored(l) && EveryBranchAnchored(r)
  }

  predicate IsAnchor(x: Expr) {
    x.Pred? && x.pred.Event? && IsLifecycle(AsciiLower(x.pred.value))
  }

  predicate NoAnchor(x: Expr) {
    !IsAnchor(x)
  }

  /** The check fails exactly when some alternative of the expression names no triggered or resolved alert. */
  lemma {:induction false} AnchoredExactly(e: Expr)
    ensures !EveryBranchAnchored(e) <==> SomeAll(Branches(e), NoAnchor)
  {
    match e
    case Pred(_) => assert AllOf(Branches(e)[0], NoAnchor) <==> NoAnchor([e][0]);
    case Not(_) => assert AllOf(Branches(e)[0], NoAnchor) <==> NoAnchor([e][0]);
    case Or(l, r) =>
      AnchoredExactly(l);
      AnchoredExactly(r);
      SomeAllConcat(Branches(l), Branches(r), NoAnchor);
    case And(l, r) =>
      AnchoredExactly(l);
      AnchoredExactly(r);
      SomeAllProducts(Branches(l), Branches(r), NoAnchor);
  }

  /** The expression of an input that a schedule accepts; `utf8Length` is the encoder's. */
  function AcceptedExpression(input: string, syntax: Syntax, c: Contract, utf8Length: string -> nat): Option<Expr> {
    var trimmed := Trim(input);
    if trimmed == "" || utf8Length(trimmed) > 4096 then None
    else
      var parsed := ParseSearchExpression(trimmed, syntax);
      if parsed.Refused? || parsed.expression.None? then None
      else if ContainsUnsupported(c, parsed.expression.value) || !EveryBranchAnchored(parsed.expression.value) then None
      else parsed.expression
  }

  /** All predicates of an expression. */
  function Leaves(e: Expr): set<Predicate> {
    match e
    case Pred(p) => {p}
    case Not(x) => Leaves(x)
    case And(l, r) => Leaves(l) + Leaves(r)
    case Or(l, r) => Leaves(l) + Leaves(r)
  }

  lemma {:induction false} SupportedExactly(c: Contract, e: Expr)
    ensures ContainsUnsupported(c, e) <==> exists p | p in Leaves(e) :: UnsupportedPredicate(c, p)
  {
    match e
    case Pred(p) => assert p in Leaves(e);
    case Not(x) => SupportedExactly(c, x);
    case And(l, r) =>
      SupportedExactly(c, l);
      SupportedExactly(c, r);
    case Or(l, r) =>
      SupportedExactly(c, l);
      SupportedExactly(c, r);
  }

  /** A schedule accepts exactly the non-empty inputs of at most 4096 bytes that read as an expression whose
      predicates are all allowed and whose alternatives each name a triggered or resolved alert. */
  lemma AcceptedExactly(input: string, syntax: Syntax, c: Contract, utf8Length: string -> nat, e: Expr)
    ensures AcceptedExpression(input, syntax, c, utf8Length) == Some(e) <==>
            && Trim(input) != "" && utf8Length(Trim(input)) <= 4096
            && ParseSearchExpression(Trim(input), syntax) == Search(Some(e))
            && (forall p | p in Leaves(e) :: !UnsupportedPredicate(c, p)) && !SomeAll(Branches(e), NoAnchor)
  {
    SupportedExactly(c, e);
    AnchoredExactly(e);
  }

  /** Some event of the context has this lower-case name. */
  predicate Seen(host: Host, f: Fields, event: string) {
    f.events.Some? && exists e | e in f.events.value :: host.lower(e) == event
  }

  lemma {:induction false} AnchoredNeedsLifecycle(host: Host, f: Fields, e: Expr)
    requires EveryBranchAnchored(e) && Printable(e) && Evaluate(host, f, e)
    ensures Seen(host, f, "alert.triggered") || Seen(host, f, "alert.resolved")
  {
    match e
    case Pred(p) =>
      AsciiLowerIdempotent(p.value);
      assert p.value == AsciiLower(p.value);
    case And(l, r) => AnchoredNeedsLifecycle(host, f, if EveryBranchAnchored(l) then l else r);
    case Or(l, r) => AnchoredNeedsLifecycle(host, f, if Evaluate(host, f, l) then l else r);
  }

  lemma ParsedIsPrintable(input: string, syntax: Syntax, e: Expr)
    requires ParseSearchExpression(input, syntax) == Search(Some(e))
    ensures Printable(e)
  {
    var ts := Lexemes(Tokenize(input, 0, false, syntax.validRegex).tokens);
    assert ParseAll(ts).value == Some(e) && ParseAll(ts).error == None;
    ParserMatchesGrammar(ts, e);
    OrIsPrintable(ts, e);
  }

  /** An accepted expression is true only in a context with a triggered or resolved alert. */
  lemma AcceptedNeedsAlert(input: string, syntax: Syntax, c: Contract, utf8Length: string -> nat, host: Host, f: Fields)
    requires AcceptedExpression(input, syntax, c, utf8Length).Some?
    requires Evaluate(host, f, AcceptedExpression(input, syntax, c, utf8Length).value)
    ensures Seen(host, f, "alert.triggered") || Seen(host, f, "alert.resolved")
  {
    var e := AcceptedExpression(input, syntax, c, utf8Length).value;
    ParsedIsPrintable(Trim(input), syntax, e);
    AnchoredNeedsLifecycle(host, f, e);
  }

  // ---- what an accepted expression can read --------------------------------------------------------

  predicate NoVpsFields(c: Contract) {
    forall field | field in c.fields :: !StartsWith(CanonicalField(field), "vps.")
  }

  predicate SameLookup<T(==)>(a: map<string, T>, b: map<string, T>, key: string) {
    (key in a <==> key in b) && (key in a ==> a[key] == b[key])
  }

  /** Two contexts that show the same allowed fields and the same allowed events. */
  ghost predicate Agree(host: Host, c: Contract, f: Fields, g: Fields) {
    && (forall field | field in c.fields :: SameLookup(f.fields, g.fields, field) && SameLookup(f.namespaces, g.namespaces, field))
    && (forall event | AllowedEvent(c, AsciiLower(event)) :: Seen(host, f, event) <==> Seen(host, g, event))
  }

  /** An allowed field is looked up under its own lower-case name. */
  lemma AllowedFieldIsItself(c: Contract, field: string)
    requires NoVpsFields(c) && AsciiLower(field) in c.fields
    ensures CanonicalField(field) == AsciiLower(field) && !StartsWith(AsciiLower(field), "vps.")
  {
    AsciiLowerIdempotent(field);
    var canonical := CanonicalField(field);
    assert canonical == CanonicalField(AsciiLower(field));
    assert !StartsWith(canonical, "vps.");
  }

  lemma SameFieldValues(host: Host, c: Contract, f: Fields, g: Fields, field: string)
    requires NoVpsFields(c) && AsciiLower(field) in c.fields && Agree(host, c, f, g)
    ensures FieldValues(f, field) == FieldValues(g, field)
    ensures KeyedRule(field).None? && CanonicalField(field) != "vps.rules" && CanonicalField(field) != "vps.tag"
  {
    AllowedFieldIsItself(c, field);
    CanonicalFieldIdempotent(field);
    var canonical := CanonicalField(field);
    assert "vps." <= "vps.rules:";
    assert SameLookup(f.fields, g.fields, canonical) && SameLookup(f.namespaces, g.namespaces, canonical);
  }

  lemma SamePredicate(host: Host, c: Contract, f: Fields, g: Fields, p: Predicate)
    requires NoVpsFields(c) && Agree(host, c, f, g) && !UnsupportedPredicate(c, p)
    ensures PredicateMatches(host, f, p) <==> PredicateMatches(host, g, p)
  {
    match p
    case Event(value) =>
      assert PredicateMatches(host, f, p) == Seen(host, f, value) && PredicateMatches(host, g, p) == Seen(host, g, value);
    case Comparison(field, _, _) => SameFieldValues(host, c, f, g, field);
    case Membership(field, _, _) => SameFieldValues(host, c, f, g, field);
  }

  /** Contexts that agree on the allowed fields and events get the same verdict. */
  lemma {:induction false} OnlyAllowedMatters(host: Host, c: Contract, f: Fields, g: Fields, e: Expr)
    requires NoVpsFields(c) && Agree(host, c, f, g) && !ContainsUnsupported(c, e)
    ensures Evaluate(host, f, e) <==> Evaluate(host, g, e)
  {
    match e
    case Pred(p) => SamePredicate(host, c, f, g, p);
    case Not(x) => OnlyAllowedMatters(host, c, f, g, x);
    case And(l, r) =>
      OnlyAllowedMatters(host, c, f, g, l);
      OnlyAllowedMatters(host, c, f, g, r);
    case Or(l, r) =>
      OnlyAllowedMatters(host, c, f, g, l);
      OnlyAllowedMatters(host, c, f, g, r);
  }
}
