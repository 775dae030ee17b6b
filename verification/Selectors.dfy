/**
 Selector expressions built from client ids (frontend/src/searchExpression.ts): whatever the ids
 contain, the text reads back as the left-nested disjunction of `vps.id = id`.
 */
module Selectors {
  import opened Options
  import opened Texts
  import opened Tokenizer
  import opened Expressions
  import opened Parsing
  import opened Grammar
  import opened Evaluation
  import opened Spelling

  // ---- building the text ---------------------------------------------------------------------

  predicate NeedsNoQuotes(value: string) {
    value != "" && IsPlainText(value)
  }

  function Quote(value: string): string {
    if NeedsNoQuotes(value) then value else "\"" + Escape('"', value) + "\""
  }

  function Item(id: string): string {
    "id:" + Quote(id)
  }

  function Join(ids: seq<string>): string {
    if ids == [] then "" else if |ids| == 1 then Item(ids[0]) else Item(ids[0]) + (" || " + Join(ids[1..]))
  }

  /** The trimmed non-empty ids, each at its first occurrence. */
  function DistinctIds(ids: seq<string>): (r: seq<string>)
    ensures NonEmpty(r) && forall i, j | 0 <= i < j < |r| :: r[i] != r[j]
  {
    if ids == [] then []
    else
      var front, id := DistinctIds(ids[..|ids| - 1]), Trim(ids[|ids| - 1]);
      if id == "" || id in front then front else front + [id]
  }

  predicate NonEmpty(ids: seq<string>) {
    forall i | 0 <= i < |ids| :: ids[i] != ""
  }

  ghost predicate Occurs(ids: seq<string>, id: string) {
    exists i | 0 <= i < |ids| :: Trim(ids[i]) == id
  }

  lemma OccursLast(ids: seq<string>, id: string)
    requires ids != []
    ensures Occurs(ids, id) <==> Occurs(ids[..|ids| - 1], id) || Trim(ids[|ids| - 1]) == id
  {
    var n := |ids| - 1;
    var front := ids[..n];
    if i :| 0 <= i < |ids| && Trim(ids[i]) == id {
      assert i < n ==> Trim(front[i]) == id;
    }
    if i :| 0 <= i < n && Trim(front[i]) == id {
      assert Trim(ids[i]) == id;
    }
  }

  /** Exactly the trimmed non-empty ids are kept. */
  lemma {:induction false} DistinctIdsKeeps(ids: seq<string>, id: string)
    ensures id in DistinctIds(ids) <==> id != "" && Occurs(ids, id)
  {
    if ids != [] {
      DistinctIdsKeeps(ids[..|ids| - 1], id);
      OccursLast(ids, id);
    }
  }

  function SelectorExpression(ids: seq<string>): string {
    Join(DistinctIds(ids))
  }

  // ---- reading the text back -------------------------------------------------------------------

  function IdTerm(id: string): Lexeme {
    Lexeme(TermValue, "id:" + id)
  }

  function SelectorLexemes(ids: seq<string>): seq<Lexeme> {
    if ids == [] then [] else if |ids| == 1 then [IdTerm(ids[0])]
    else [IdTerm(ids[0])] + ([Lexeme(OrWord, "||")] + SelectorLexemes(ids[1..]))
  }

  /** An id as a written term: as it is, or in quotes behind its field. */
  function IdSpelled(id: string, gap: seq<string>): Spelled {
    Spelled(IdTerm(id), if NeedsNoQuotes(id) then Plain else Mixed(3, '"'), gap)
  }

  function OrSpelled(): Spelled {
    Spelled(Lexeme(OrWord, "||"), Plain, [" "])
  }

  function SelectorItems(ids: seq<string>): seq<Spelled> {
    if ids == [] then [] else if |ids| == 1 then [IdSpelled(ids[0], [])]
    else [IdSpelled(ids[0], [" "])] + ([OrSpelled()] + SelectorItems(ids[1..]))
  }

  lemma ColonOfItem(id: string)
    ensures IndexOf("id:" + id, ':') == 2
  {
    var value := "id:" + id;
    assert value[1..][1..][0] == ':';
    assert IndexOf(value[1..][1..], ':') == 0;
    assert IndexOf(value[1..], ':') == 1;
  }

  lemma IdIsTermValue(id: string)
    requires id != ""
    ensures IsTermValue("id:" + id)
  {
    var value := "id:" + id;
    ColonOfItem(id);
    LetterIsPlain('i');
    assert value[0] == 'i';
    assert |AsciiLower(value)| > 3;
  }

  lemma PlainIdText(id: string)
    requires IsPlainText(id)
    ensures IsPlainText("id:" + id)
  {
    var value := "id:" + id;
    LetterIsPlain('i');
    LetterIsPlain('d');
    forall i | 0 <= i < |value|
      ensures IsPlain(value[i]) && !OpensBlockComment(value, i)
    {
      if i >= 3 {
        assert value[i] == id[i - 3];
        assert i + 1 < |value| ==> value[i + 1] == id[i - 2];
        assert !OpensBlockComment(id, i - 3);
      }
    }
  }

  lemma IdFits(id: string, gap: seq<string>, validRegex: string -> bool)
    requires id != ""
    ensures var item := IdSpelled(id, gap);
            Fits(item.lexeme, item.style, validRegex) && Written(item.lexeme, item.style) == Item(id)
  {
    IdIsTermValue(id);
    if NeedsNoQuotes(id) {
      PlainIdText(id);
    } else {
      PlainIdText("");
      assert "id:" + "" == "id:";
      assert ("id:" + id)[..3] == "id:" && ("id:" + id)[3..] == id;
      assert "\"" + Escape('"', id) + "\"" == QuotedText('"', id);
    }
  }

  lemma OneSpace()
    ensures IsGap([" "]) && Concat([" "]) == " "
  {
    assert Concat([" "]) == " " + Concat([]);
  }

  lemma StopsAtSpace(more: string)
    ensures StopsHere(" " + more)
  {
    assert (" " + more)[0] == ' ';
  }

  lemma OrFits(more: string, validRegex: string -> bool)
    ensures var item := OrSpelled(); Fits(item.lexeme, item.style, validRegex) && Ends(item.lexeme, more)
  {
    assert |AsciiLower("||")| == 2 && AsciiLower("||")[0] == '|';
  }

  lemma Bars(t: string)
    ensures " " + ("||" + (" " + t)) == " || " + t
  {
  }

  /** One more id and a separator in front of a written selector. */
  lemma MoreSpelled(id: string, items: seq<Spelled>, validRegex: string -> bool)
    requires id != "" && WellSpelled(items, validRegex)
    ensures var all := [IdSpelled(id, [" "])] + ([OrSpelled()] + items);
            && WellSpelled(all, validRegex) && TextOf(all) == Item(id) + (" || " + TextOf(items))
            && LexemesOf(all) == [IdTerm(id)] + ([Lexeme(OrWord, "||")] + LexemesOf(items))
  {
    var first, rest := IdSpelled(id, [" "]), [OrSpelled()] + items;
    OneSpace();
    OrFits(" " + TextOf(items), validRegex);
    SpelledCons(OrSpelled(), items, validRegex);
    TextCons(OrSpelled(), items);
    IdFits(id, [" "], validRegex);
    StopsAtSpace(TextOf(rest));
    SpelledCons(first, rest, validRegex);
    TextCons(first, rest);
    Bars(TextOf(items));
  }

  lemma LastSpelled(id: string, validRegex: string -> bool)
    requires id != ""
    ensures var all := [IdSpelled(id, [])];
            WellSpelled(all, validRegex) && TextOf(all) == Item(id) && LexemesOf(all) == [IdTerm(id)]
  {
    IdFits(id, [], validRegex);
    SpelledCons(IdSpelled(id, []), [], validRegex);
    TextCons(IdSpelled(id, []), []);
    assert [IdSpelled(id, [])] + [] == [IdSpelled(id, [])] && Item(id) + ("" + "") == Item(id);
  }

  lemma {:induction false} SelectorSpelled(ids: seq<string>, validRegex: string -> bool)
    requires NonEmpty(ids)
    ensures WellSpelled(SelectorItems(ids), validRegex)
    ensures TextOf(SelectorItems(ids)) == Join(ids) && LexemesOf(SelectorItems(ids)) == SelectorLexemes(ids)
  {
    if |ids| == 1 {
      LastSpelled(ids[0], validRegex);
    } else if |ids| > 1 {
      SelectorSpelled(ids[1..], validRegex);
      MoreSpelled(ids[0], SelectorItems(ids[1..]), validRegex);
    }
  }

  lemma SelectorReads(ids: seq<string>, validRegex: string -> bool)
    requires NonEmpty(ids)
    ensures Reads(Tokenize(Join(ids), 0, false, validRegex), SelectorLexemes(ids))
  {
    SelectorSpelled(ids, validRegex);
    SpelledReads([], SelectorItems(ids), validRegex);
    assert Concat([]) + Join(ids) == Join(ids);
  }

  // ---- the expression ------------------------------------------------------------------------

  function IdIs(id: string): Expr {
    Pred(Comparison("vps.id", Eq, id))
  }

  function AnyOf(ids: seq<string>): Expr
    requires ids != []
  {
    if |ids| == 1 then IdIs(ids[0]) else Or(AnyOf(ids[..|ids| - 1]), IdIs(ids[|ids| - 1]))
  }

  lemma IdIsNoEvent(id: string)
    ensures !IsEventPredicate("id:" + id)
  {
    var lower := AsciiLower("id:" + id);
    assert lower[0] == 'i' && lower[1] == 'd';
    forall prefix | prefix in EVENT_PREFIXES
      ensures !StartsWith(lower, prefix)
    {
      assert |prefix| > 1 && (prefix[0] != 'i' || prefix[1] != 'd');
    }
    assert forall name | name in EVENT_NAMES :: name[0] != 'i';
  }

  lemma IdTermPredicate(id: string)
    requires id != ""
    ensures PredicateFromTerm("id:" + id) == Comparison("vps.id", Eq, id)
  {
    var raw := "id:" + id;
    IdIsNoEvent(id);
    assert AsciiLower(raw)[2] == ':' && "untagged"[2] == 't';
    ColonOfItem(id);
    assert raw[..2] == "id" && raw[3..] == id;
    LowerCaseIsFixed("id");
  }

  lemma {:induction false} LexemesSplit(ids: seq<string>)
    requires |ids| > 1
    ensures SelectorLexemes(ids) == SelectorLexemes(ids[..|ids| - 1]) + [Lexeme(OrWord, "||"), IdTerm(ids[|ids| - 1])]
  {
    if |ids| > 2 {
      LexemesSplit(ids[1..]);
      assert ids[1..][..|ids| - 2] == ids[..|ids| - 1][1..];
    }
  }

  lemma IdTermDerives(id: string)
    requires id != ""
    ensures GAnd([IdTerm(id)], IdIs(id)) && GOr([IdTerm(id)], IdIs(id))
  {
    IdTermPredicate(id);
    assert GPrimary([IdTerm(id)], IdIs(id));
    assert GNot([IdTerm(id)], IdIs(id));
    assert GAnd([IdTerm(id)], IdIs(id));
  }

  lemma {:induction false} SelectorDerives(ids: seq<string>)
    requires ids != [] && NonEmpty(ids)
    ensures GOr(SelectorLexemes(ids), AnyOf(ids))
  {
    var n := |ids| - 1;
    IdTermDerives(ids[n]);
    if n > 0 {
      var front := SelectorLexemes(ids[..n]);
      SelectorDerives(ids[..n]);
      LexemesSplit(ids);
      var ts, k := SelectorLexemes(ids), |front|;
      assert ts[..k] == front && ts[k].kind == OrWord && ts[k + 1..] == [IdTerm(ids[n])];
      assert 0 < k < |ts|;
    }
  }

  lemma {:induction false} NoRuleError(syntax: Syntax, ids: seq<string>)
    requires ids != []
    ensures !AnyRuleError(syntax, AnyOf(ids))
  {
    CanonicalNamesAreFixed();
    assert HasRuleError(syntax, Comparison("vps.id", Eq, ids[|ids| - 1])) == false;
    if |ids| > 1 {
      NoRuleError(syntax, ids[..|ids| - 1]);
    }
  }

  /** Whatever the ids contain, the selector text reads back as the disjunction over them in order;
      without any id it is the empty expression. */
  lemma SelectorReadsBack(ids: seq<string>, syntax: Syntax)
    ensures var distinct := DistinctIds(ids);
            ParseSearchExpression(SelectorExpression(ids), syntax) ==
            Search(if distinct == [] then None else Some(AnyOf(distinct)))
  {
    var distinct, input := DistinctIds(ids), SelectorExpression(ids);
    SelectorReads(distinct, syntax.validRegex);
    if distinct != [] {
      SelectorDerives(distinct);
      ParserMatchesGrammar(SelectorLexemes(distinct), AnyOf(distinct));
      NoRuleError(syntax, distinct);
    }
  }

  // ---- what it selects ------------------------------------------------------------------------

  lemma IdComparison(host: Host, f: Fields, agent: string, id: string)
    requires "vps.id" in f.fields && f.fields["vps.id"] == [Text(agent)]
    ensures Evaluate(host, f, IdIs(id)) <==> ValueMatches(host, agent, id, false)
  {
    CanonicalNamesAreFixed();
    var values := FieldValues(f, "vps.id").value;
    assert values == [Text(agent)] && Text(agent) in values;
  }

  lemma {:induction false} AnyOfMeaning(host: Host, f: Fields, agent: string, ids: seq<string>)
    requires ids != [] && "vps.id" in f.fields && f.fields["vps.id"] == [Text(agent)]
    ensures Evaluate(host, f, AnyOf(ids)) <==> MatchesAny(host, agent, ids)
  {
    var n := |ids| - 1;
    IdComparison(host, f, agent, ids[n]);
    if n > 0 {
      AnyOfMeaning(host, f, agent, ids[..n]);
      MatchesLast(host, agent, ids);
    } else {
      assert ids == [ids[0]] && ids[0] in ids;
    }
  }

  lemma MatchesLast(host: Host, agent: string, ids: seq<string>)
    requires ids != []
    ensures MatchesAny(host, agent, ids) <==>
            MatchesAny(host, agent, ids[..|ids| - 1]) || ValueMatches(host, agent, ids[|ids| - 1], false)
  {
    var n := |ids| - 1;
    assert forall id | id in ids :: id in ids[..n] || id == ids[n];
  }

  predicate MatchesAny(host: Host, agent: string, ids: seq<string>) {
    exists id | id in ids :: ValueMatches(host, agent, id, false)
  }

  predicate Listed(host: Host, agent: string, ids: seq<string>) {
    exists id | id in DistinctIds(ids) :: host.lower(agent) == host.lower(id)
  }

  /** The selector of ids without wildcards selects an agent exactly when its id is listed ignoring
      case, provided that some id is not blank; with only blank ids it selects every agent. */
  lemma SelectorSelects(host: Host, syntax: Syntax, f: Fields, agent: string, ids: seq<string>)
    requires "vps.id" in f.fields && f.fields["vps.id"] == [Text(agent)]
    requires forall id | id in DistinctIds(ids) :: !HasGlob(host.lower(id))
    ensures var parsed := ParseSearchExpression(SelectorExpression(ids), syntax);
            && parsed.Search?
            && (Selects(host, f, parsed.expression) <==> DistinctIds(ids) == [] || Listed(host, agent, ids))
            && ((Selects(host, f, parsed.expression) <==> Listed(host, agent, ids)) <==> DistinctIds(ids) != [])
  {
    SelectorReadsBack(ids, syntax);
    if DistinctIds(ids) != [] {
      AnyOfMeaning(host, f, agent, DistinctIds(ids));
    }
  }
}
