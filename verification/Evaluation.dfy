/**
 Evaluation of search expressions against the fields of one item, and the whole path from an
 input text to an expression (frontend/src/searchExpression.ts). What the host supplies
 (locale lower-casing, number and date reading, regular expressions, rule normalization) is a parameter.
 */
module Evaluation {
  import opened Options
  import opened Texts
  import opened Tokenizer
  import opened Expressions
  import opened Parsing
  import Glob

  datatype Value = Text(text: string) | Number(number: real)

  datatype Rule = Rule(key: string, raw: string)

  datatype Fields = Fields(
    all: seq<string>,
    events: Option<seq<string>>,
    fields: map<string, seq<Value>>,
    namespaces: map<string, seq<string>>,
    rules: Option<seq<Rule>>)

  datatype Host = Host(
    lower: string -> string,
    readNumber: string -> Option<real>,
    readTimestamp: string -> Option<real>,
    showNumber: real -> string,
    regexMatches: (string, string) -> bool,
    normalizeRule: (string, string) -> Option<string>,
    orderedRuleMatches: (Rule, Comparator, string) -> bool)

  predicate HasGlob(value: string) {
    '*' in value || '?' in value
  }

  function Show(host: Host, value: Value): string {
    match value
    case Text(text) => text
    case Number(number) => host.showNumber(number)
  }

  predicate Contains(value: string, part: string) {
    part <= value || (value != "" && Contains(value[1..], part))
  }

  predicate ValueMatches(host: Host, value: string, pattern: string, allowContains: bool) {
    var v, p := host.lower(value), host.lower(pattern);
    if HasGlob(p) then Glob.Accepts(v, p)
    else if allowContains then Contains(v, p)
    else v == p
  }

  predicate Ordered(actual: real, operator: Comparator, expected: real) {
    match operator
    case Lt => actual < expected
    case Le => actual <= expected
    case Gt => actual > expected
    case _ => actual >= expected
  }

  predicate CompareValue(host: Host, actual: Value, operator: Comparator, expected: string) {
    if operator.Eq? || operator.Ne? then
      var matched := match actual
        case Number(number) => host.readNumber(expected) == Some(number)
        case Text(text) => ValueMatches(host, text, expected, false);
      matched == operator.Eq?
    else
      var left := if actual.Number? then Some(actual.number) else host.readTimestamp(actual.text);
      var right := host.readTimestamp(expected);
      left.Some? && right.Some? && Ordered(left.value, operator, right.value)
  }

  predicate ListValueMatches(host: Host, actual: string, value: ListValue) {
    match value
    case Literal(text) => ValueMatches(host, actual, text, false)
    case Pattern(text) => host.regexMatches(text, actual)
  }

  predicate RuleLiteralMatches(actual: string, expected: string) {
    var a, e := AsciiLower(actual), AsciiLower(expected);
    if HasGlob(expected) then Glob.Accepts(a, e) else a == e
  }

  // ---- fields ----------------------------------------------------------------------------------

  /** `vps.rules:<key>` names one rule; an empty key names none. */
  function KeyedRule(field: string): Option<string> {
    var canonical := CanonicalField(field);
    if StartsWith(canonical, "vps.rules:") && |canonical| > 10 then Some(canonical[10..]) else None
  }

  function FindRule(rules: seq<Rule>, key: string): Option<Rule> {
    if rules == [] then None else if rules[0].key == key then Some(rules[0]) else FindRule(rules[1..], key)
  }

  function AsTexts(values: seq<string>): seq<Value> {
    seq(|values|, i requires 0 <= i < |values| => Text(values[i]))
  }

  function RuleKeys(rules: seq<Rule>): seq<Value> {
    seq(|rules|, i requires 0 <= i < |rules| => Text(rules[i].key))
  }

  function FieldValues(f: Fields, field: string): Option<seq<Value>> {
    var canonical := CanonicalField(field);
    if canonical == "vps.rules" then
      if f.rules.None? then None else Some(RuleKeys(f.rules.value))
    else if KeyedRule(canonical).Some? then
      if f.rules.None? then None
      else
        var rule := FindRule(f.rules.value, KeyedRule(canonical).value);
        Some(if rule.Some? then [Text(rule.value.raw)] else [])
    else if canonical in f.fields then Some(f.fields[canonical])
    else if canonical in f.namespaces then Some(AsTexts(f.namespaces[canonical]))
    else if StartsWith(canonical, "vps.") && canonical[4..] in f.namespaces then Some(AsTexts(f.namespaces[canonical[4..]]))
    else None
  }

  // ---- predicates --------------------------------------------------------------------------------

  predicate RuleValueMatches(host: Host, rule: Rule, key: string, expected: ListValue) {
    match expected
    case Pattern(text) => host.regexMatches(text, rule.raw)
    case Literal(text) =>
      if HasGlob(text) then RuleLiteralMatches(rule.raw, text)
      else
        var a, e := host.normalizeRule(key, rule.raw), host.normalizeRule(key, text);
        a.Some? && e.Some? && a.value != "" && e.value != "" && AsciiLower(a.value) == AsciiLower(e.value)
  }

  predicate KeyedComparison(host: Host, rule: Rule, key: string, operator: Comparator, expected: string) {
    if !operator.Eq? && !operator.Ne? then host.orderedRuleMatches(rule, operator, expected)
    else
      var e := if HasGlob(expected) then Some(expected) else host.normalizeRule(key, expected);
      var a := if HasGlob(expected) then Some(rule.raw) else host.normalizeRule(key, rule.raw);
      a.Some? && e.Some? && (RuleLiteralMatches(a.value, e.value) == operator.Eq?)
  }

  predicate ComparisonMatches(host: Host, f: Fields, field: string, operator: Comparator, expected: string)
    requires FieldValues(f, field).Some?
  {
    var values := FieldValues(f, field).value;
    if CanonicalField(field) == "vps.rules" then
      (exists v | v in values :: RuleLiteralMatches(Show(host, v), expected)) == operator.Eq?
    else if KeyedRule(field).Some? then
      f.rules.Some? &&
      var rule := FindRule(f.rules.value, KeyedRule(field).value);
      rule.Some? && KeyedComparison(host, rule.value, KeyedRule(field).value, operator, expected)
    else exists v | v in values :: CompareValue(host, v, operator, expected)
  }

  predicate KeyListMatches(host: Host, actual: string, values: seq<ListValue>) {
    exists w | w in values ::
      match w
      case Pattern(text) => host.regexMatches(text, actual)
      case Literal(text) => RuleLiteralMatches(actual, text)
  }

  predicate MembershipMatches(host: Host, f: Fields, field: string, negated: bool, values: seq<ListValue>)
    requires FieldValues(f, field).Some?
  {
    var actuals := FieldValues(f, field).value;
    if CanonicalField(field) == "vps.rules" then
      (exists v | v in actuals :: KeyListMatches(host, Show(host, v), values)) != negated
    else if KeyedRule(field).Some? then
      f.rules.Some? &&
      var rule := FindRule(f.rules.value, KeyedRule(field).value);
      rule.Some? && ((exists w | w in values :: RuleValueMatches(host, rule.value, KeyedRule(field).value, w)) != negated)
    else
      (exists v | v in actuals :: exists w | w in values :: ListValueMatches(host, Show(host, v), w)) != negated
  }

  predicate PredicateMatches(host: Host, f: Fields, p: Predicate) {
    match p
    case Bare(value) => exists v | v in f.all :: ValueMatches(host, v, value, true)
    case Event(value) => f.events.Some? && exists event | event in f.events.value :: host.lower(event) == value
    case Untagged => "vps.tag" in f.fields && f.fields["vps.tag"] == []
    case Comparison(field, operator, value) =>
      FieldValues(f, field).Some? && ComparisonMatches(host, f, field, operator, value)
    case Membership(field, negated, values) =>
      if FieldValues(f, field).Some? then MembershipMatches(host, f, field, negated, values)
      else
        // an item without tag fields is searched for a namespaced tag as text
        && CanonicalField(field) == "vps.tag" && |values| == 1 && values[0].Literal? && ':' in values[0].value
        && exists v | v in f.all :: ValueMatches(host, v, values[0].value, true)
  }

  predicate Evaluate(host: Host, f: Fields, e: Expr) {
    match e
    case And(l, r) => Evaluate(host, f, l) && Evaluate(host, f, r)
    case Or(l, r) => Evaluate(host, f, l) || Evaluate(host, f, r)
    case Not(x) => !Evaluate(host, f, x)
    case Pred(p) => PredicateMatches(host, f, p)
  }

  /** The absent expression of an empty input selects everything. */
  predicate Selects(host: Host, f: Fields, e: Option<Expr>) {
    e.None? || Evaluate(host, f, e.value)
  }

  // ---- from text to expression ---------------------------------------------------------------------

  /** What the host decides while an expression is read. */
  datatype Syntax = Syntax(
    validRegex: string -> bool,
    isRuleKey: string -> bool,
    isRuleValue: (string, string) -> bool,
    isOrderedRuleValue: (string, string) -> bool)

  predicate BadKeyName(syntax: Syntax, value: string) {
    !HasGlob(value) && !syntax.isRuleKey(AsciiLower(value))
  }

  predicate HasRuleError(syntax: Syntax, p: Predicate) {
    match p
    case Bare(value) => AsciiLower(value) == "vps.rules" || StartsWith(AsciiLower(value), "vps.rules.")
    case Event(_) => false
    case Untagged => false
    case Comparison(field, operator, value) =>
      var canonical := CanonicalField(field);
      if canonical == "vps.rules" then !operator.Eq? || BadKeyName(syntax, value)
      else if StartsWith(canonical, "vps.rules.") then true
      else if KeyedRule(canonical).None? then false
      else if !syntax.isRuleKey(KeyedRule(canonical).value) then true
      else if operator.Eq? || operator.Ne? then !HasGlob(value) && !syntax.isRuleValue(KeyedRule(canonical).value, value)
      else !syntax.isOrderedRuleValue(KeyedRule(canonical).value, value)
    case Membership(field, negated, values) =>
      var canonical := CanonicalField(field);
      if canonical == "vps.rules" then negated || exists v | v in values :: v.Literal? && BadKeyName(syntax, v.value)
      else if StartsWith(canonical, "vps.rules.") then true
      else if KeyedRule(canonical).None? then false
      else if !syntax.isRuleKey(KeyedRule(canonical).value) then true
      else exists v | v in values ::
        v.Literal? && !HasGlob(v.value) && !syntax.isRuleValue(KeyedRule(canonical).value, v.value)
  }

  predicate AnyRuleError(syntax: Syntax, e: Expr) {
    match e
    case And(l, r) => AnyRuleError(syntax, l) || AnyRuleError(syntax, r)
    case Or(l, r) => AnyRuleError(syntax, l) || AnyRuleError(syntax, r)
    case Not(x) => AnyRuleError(syntax, x)
    case Pred(p) => HasRuleError(syntax, p)
  }

  predicate IsBlankText(input: string) {
    forall c | c in input :: IsSpace(c)
  }

  datatype SearchResult = Search(expression: Option<Expr>) | Refused(error: string)

  function ParseSearchExpression(input: string, syntax: Syntax): SearchResult {
    var scan := Tokenize(input, 0, false, syntax.validRegex);
    if scan.error.Some? then Refused(scan.error.value)
    else if scan.tokens == [] then if IsBlankText(input) then Search(None) else Refused("Expression is empty")
    else
      var r := ParseAll(Lexemes(scan.tokens));
      if r.error.Some? then Refused(r.error.value)
      else if r.value.Some? && AnyRuleError(syntax, r.value.value) then Refused("invalid VPS rule expression")
      else Search(r.value)
  }
}
