/** Search expressions and the predicate that a single term stands for (frontend/src/searchExpression.ts). */
module Expressions {
  import opened Options
  import opened Texts
  import opened Tokenizer

  datatype Comparator = Eq | Ne | Lt | Le | Gt | Ge

  datatype ListValue = Literal(value: string) | Pattern(value: string)

  datatype Predicate =
    | Bare(value: string)
    | Comparison(field: string, operator: Comparator, value: string)
    | Membership(field: string, negated: bool, values: seq<ListValue>)
    | Event(value: string)
    | Untagged

  datatype Expr =
    | Pred(pred: Predicate)
    | Not(expression: Expr)
    | And(left: Expr, right: Expr)
    | Or(left: Expr, right: Expr)

  function ComparatorOf(sign: string): Option<Comparator> {
    if sign == "=" then Some(Eq)
    else if sign == "!=" then Some(Ne)
    else if sign == "<" then Some(Lt)
    else if sign == "<=" then Some(Le)
    else if sign == ">" then Some(Gt)
    else if sign == ">=" then Some(Ge)
    else None
  }

  function SignOf(operator: Comparator): (sign: string)
    ensures ComparatorOf(sign) == Some(operator)
  {
    match operator
    case Eq => "="
    case Ne => "!="
    case Lt => "<"
    case Le => "<="
    case Gt => ">"
    case Ge => ">="
  }

  function CanonicalField(field: string): string {
    var lower := AsciiLower(field);
    if lower in {"id", "client_id", "vps.id", "vps.client_id"} then "vps.id"
    else if lower in {"name", "display_name", "vps.name", "vps.display_name"} then "vps.display_name"
    else if lower in {"status", "vps.status"} then "vps.status"
    else if lower in {"tag", "tags", "vps.tag", "vps.tags"} then "vps.tag"
    else if lower in {"last_seen", "last_seen_at", "vps.last_seen", "vps.last_seen_at"} then "vps.last_seen_at"
    else if lower in {"region", "vps.region"} then "vps.region"
    else lower
  }

  lemma CanonicalNamesAreLowerCase()
    ensures AsciiLower("vps.id") == "vps.id" && AsciiLower("vps.display_name") == "vps.display_name"
    ensures AsciiLower("vps.status") == "vps.status" && AsciiLower("vps.tag") == "vps.tag"
    ensures AsciiLower("vps.last_seen_at") == "vps.last_seen_at" && AsciiLower("vps.region") == "vps.region"
  {
    LowerCaseIsFixed("vps.id");
    LowerCaseIsFixed("vps.display_name");
    LowerCaseIsFixed("vps.status");
    LowerCaseIsFixed("vps.tag");
    LowerCaseIsFixed("vps.last_seen_at");
    LowerCaseIsFixed("vps.region");
  }

  lemma CanonicalNamesAreFixed()
    ensures CanonicalField("vps.id") == "vps.id" && CanonicalField("vps.display_name") == "vps.display_name"
    ensures CanonicalField("vps.status") == "vps.status" && CanonicalField("vps.tag") == "vps.tag"
    ensures CanonicalField("vps.last_seen_at") == "vps.last_seen_at" && CanonicalField("vps.region") == "vps.region"
  {
    CanonicalNamesAreLowerCase();
  }

  /** Every alias leads to one spelling, and that spelling stands for itself. */
  lemma CanonicalFieldIdempotent(field: string)
    ensures CanonicalField(CanonicalField(field)) == CanonicalField(field)
  {
    CanonicalNamesAreFixed();
    AsciiLowerIdempotent(field);
  }

  const EVENT_PREFIXES: seq<string> := [
    "interval.", "vps.status.", "vps.tag_event:", "vps.tag_event.added:", "vps.tag_event.removed:", "job.status:",
    "job.status.become_", "job.type:", "job.target.status:", "schedule.id:", "schedule.name:", "alert.severity:", "alert.category:"]

  const EVENT_NAMES: seq<string> := [
    "server.on_start", "schedule.due", "schedule.job_finished", "schedule.failed", "vps.tag_changed", "job.created",
    "alert.triggered", "alert.resolved", "telemetry.rollup", "telemetry.network_rate", "telemetry.tunnel"]

  predicate IsEventPredicate(raw: string) {
    var lower := AsciiLower(raw);
    (exists prefix | prefix in EVENT_PREFIXES :: StartsWith(lower, prefix)) || lower in EVENT_NAMES
  }

  function TagLiteral(value: string): Predicate {
    Membership("vps.tag", false, [Literal(value)])
  }

  /** `namespace:value` with the first colon as the separator. */
  function ShorthandPredicate(raw: string): Predicate
    requires ':' in raw
  {
    var k := IndexOf(raw, ':');
    var namespace, value := raw[..k], raw[k + 1..];
    var lower := AsciiLower(namespace);
    if value == "" then Bare(raw)
    else if lower == "id" then Comparison("vps.id", Eq, value)
    else if lower == "name" then Comparison("vps.display_name", Eq, value)
    else if lower == "status" then Comparison("vps.status", Eq, value)
    else if lower in {"tag", "tags", "vps.tag", "vps.tags"} then TagLiteral(value)
    else if lower in {"provider", "country", "region"} then TagLiteral(lower + ":" + value)
    else if StartsWith(lower, "vps.") then Comparison(CanonicalField(lower), Eq, value)
    else TagLiteral(namespace + ":" + value)
  }

  function PredicateFromTerm(raw: string): Predicate {
    if AsciiLower(raw) == "untagged" then Untagged
    else if IsEventPredicate(raw) then Event(AsciiLower(raw))
    else if ':' in raw then ShorthandPredicate(raw)
    else Bare(raw)
  }

  /** The predicates that some term, or some term with an operator, can stand for. */
  predicate Expressible(p: Predicate) {
    match p
    case Bare(value) => PredicateFromTerm(value) == p
    case Comparison(field, _, _) => CanonicalField(field) == field
    case Membership(field, _, values) => CanonicalField(field) == field && values != []
    case Event(value) => PredicateFromTerm(value) == p
    case Untagged => true
  }

  lemma ShorthandIsExpressible(raw: string)
    requires ':' in raw
    ensures var p := ShorthandPredicate(raw);
            || p == Bare(raw)
            || (p.Comparison? && CanonicalField(p.field) == p.field)
            || (p.Membership? && CanonicalField(p.field) == p.field && p.values != [])
  {
    CanonicalFieldIdempotent(AsciiLower(raw[..IndexOf(raw, ':')]));
    CanonicalNamesAreFixed();
  }

  /** Whatever a term stands for can be written down again. */
  lemma TermIsExpressible(raw: string)
    ensures Expressible(PredicateFromTerm(raw))
  {
    AsciiLowerIdempotent(raw);
    if ':' in raw {
      ShorthandIsExpressible(raw);
    }
  }

  /** `id:`, `name:` and `status:` are short for `field = value`. */
  lemma ShorthandOfName(raw: string)
    requires ':' in raw && raw[IndexOf(raw, ':') + 1..] != "" && AsciiLower(raw[..IndexOf(raw, ':')]) in {"id", "name", "status"}
    ensures var k := IndexOf(raw, ':'); ShorthandPredicate(raw) == Comparison(CanonicalField(raw[..k]), Eq, raw[k + 1..])
  {
  }

  /** So is every field of the fleet but its tags. */
  lemma ShorthandOfFleet(raw: string)
    requires ':' in raw && raw[IndexOf(raw, ':') + 1..] != "" && StartsWith(AsciiLower(raw[..IndexOf(raw, ':')]), "vps.")
    requires CanonicalField(raw[..IndexOf(raw, ':')]) != "vps.tag"
    ensures var k := IndexOf(raw, ':'); ShorthandPredicate(raw) == Comparison(CanonicalField(raw[..k]), Eq, raw[k + 1..])
  {
    var namespace := raw[..IndexOf(raw, ':')];
    LowerHasSameField(namespace);
    FleetIsNoName(AsciiLower(namespace));
    TagsAreTags(namespace);
  }

  lemma LowerHasSameField(field: string)
    ensures CanonicalField(AsciiLower(field)) == CanonicalField(field)
  {
    AsciiLowerIdempotent(field);
  }

  lemma FleetIsNoName(lower: string)
    requires StartsWith(lower, "vps.")
    ensures lower !in {"id", "name", "status", "tag", "tags", "provider", "country", "region"}
  {
    assert lower[3] == "vps."[3];
  }

  lemma TagsAreTags(field: string)
    ensures AsciiLower(field) in {"vps.tag", "vps.tags"} ==> CanonicalField(field) == "vps.tag"
  {
  }
}
