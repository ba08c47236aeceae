/** What `processMessage` promises its callers: exact commands, the menu
    reachable only by command, keyword priority, insensitivity to case and
    surrounding whitespace, and the fallback. */
module ClassifierProperties {
  import opened Options
  import opened JsString
  import opened Classifier

  // ---------------------------------------------------------------------
  // Normalisation
  // ---------------------------------------------------------------------

  /** The normal form holds no upper-case letter. */
  lemma NormalFormIsLowerCase(message: string)
    ensures forall i :: 0 <= i < |Normalize(message)| ==> !IsUpper(Normalize(message)[i])
  {
    var a, b := TrimShape(ToLower(message));
  }

  /** A text that is already lower-case and trimmed is its own normal form. */
  lemma NormalFormIsFixed(t: string)
    requires Trimmed(t)
    requires forall i :: 0 <= i < |t| ==> !IsUpper(t[i])
    ensures Normalize(t) == t
  {
    ToLowerFixes(t);
    assert [] + t + [] == t;
    TrimUnique([], t, []);
  }

  /** Normalising twice is normalising once. */
  lemma NormalizeIdempotent(message: string)
    ensures Normalize(Normalize(message)) == Normalize(message)
  {
    var _, _ := TrimShape(ToLower(message));
    NormalFormIsLowerCase(message);
    NormalFormIsFixed(Normalize(message));
  }

  /** Lower-casing the message first changes nothing. */
  lemma NormalizeIgnoresCase(message: string)
    ensures Normalize(ToLower(message)) == Normalize(message)
  {
    ToLowerIdempotent(message);
  }

  /** Whitespace around the message changes nothing. */
  lemma NormalizeIgnoresPadding(w1: string, message: string, w2: string)
    requires AllWhitespace(w1) && AllWhitespace(w2)
    ensures Normalize(w1 + message + w2) == Normalize(message)
  {
    ToLowerConcat(w1 + message, w2);
    ToLowerConcat(w1, message);
    LowerPadding(w1);
    LowerPadding(w2);
    TrimIgnoresPadding(ToLower(w1), ToLower(message), ToLower(w2));
  }

  /** Lower-cased whitespace is still whitespace. */
  lemma LowerPadding(w: string)
    requires AllWhitespace(w)
    ensures AllWhitespace(ToLower(w))
  {
    forall i | 0 <= i < |w|
      ensures IsWhitespace(ToLower(w)[i])
    {
      LowerKeepsWhitespace(w[i]);
    }
  }

  // ---------------------------------------------------------------------
  // Replies
  // ---------------------------------------------------------------------

  /** Two messages with the same normal form get the same reply, except
      that each fallback quotes its own message. */
  lemma SameNormalFormSameReply(a: string, b: string)
    requires Normalize(a) == Normalize(b)
    ensures ProcessMessage(a).Fallback? <==> ProcessMessage(b).Fallback?
    ensures !ProcessMessage(a).Fallback? ==> ProcessMessage(a) == ProcessMessage(b)
  {
  }

  /** Case and surrounding whitespace cannot change a reply other than the
      fallback's quotation. */
  lemma CaseAndPaddingDoNotMatter(w1: string, message: string, w2: string)
    requires AllWhitespace(w1) && AllWhitespace(w2)
    ensures ProcessMessage(w1 + message + w2).Fallback? == ProcessMessage(message).Fallback?
              == ProcessMessage(ToLower(message)).Fallback?
    ensures !ProcessMessage(message).Fallback? ==>
              ProcessMessage(w1 + message + w2) == ProcessMessage(message) == ProcessMessage(ToLower(message))
  {
    NormalizeIgnoresPadding(w1, message, w2);
    NormalizeIgnoresCase(message);
    SameNormalFormSameReply(w1 + message + w2, message);
    SameNormalFormSameReply(ToLower(message), message);
  }

  /** The exact commands, and the menu numbers 3 and 4, which have no rule
      of their own. */
  lemma ExactCommands(message: string)
    ensures Normalize(message) in ["menu", "início", "inicio"] ==> ProcessMessage(message) == Menu
    ensures Normalize(message) == "1" ==> ProcessMessage(message) == Services
    ensures Normalize(message) == "2" ==> ProcessMessage(message) == Budget
    ensures Normalize(message) == "5" ==> ProcessMessage(message) == Payment
    ensures Normalize(message) in ["6", "atendente"] ==> ProcessMessage(message) == Contact
    ensures Normalize(message) in ["3", "4"] ==> ProcessMessage(message) == Fallback(message)
  {
  }

  /** No keyword rule answers with the menu: the menu comes only from its
      three exact commands. */
  lemma MenuOnlyByExactMatch(message: string)
    ensures ProcessMessage(message) == Menu <==> Normalize(message) in ["menu", "início", "inicio"]
  {
  }

  /** The fallback is given exactly when no rule of the table fires. */
  lemma FallbackIffNoRuleFires(message: string)
    ensures ProcessMessage(message).Fallback? <==>
              forall k :: 0 <= k < |Rules| ==> !Fires(Rules[k], Normalize(message))
  {
    RespondFollowsRules(Normalize(message), message);
    FirstFiringIsFirst(Rules, Normalize(message), 0);
  }

  /** First match wins: the reply is that of the first rule that fires,
      whatever the later rules would say. */
  lemma FirstMatchWins(message: string, k: nat)
    requires k < |Rules| && Fires(Rules[k], Normalize(message))
    requires forall j :: 0 <= j < k ==> !Fires(Rules[j], Normalize(message))
    ensures ProcessMessage(message) == Rules[k].reply
  {
    var text := Normalize(message);
    RespondFollowsRules(text, message);
    FirstFiringIsFirst(Rules, text, 0);
  }

  /** No exact command includes a budget keyword. */
  lemma CommandsHoldNoBudgetKeyword(text: string, w: string)
    requires w in BudgetKeywords && Includes(text, w)
    ensures forall j :: 0 <= j < 5 ==> !Fires(Rules[j], text)
  {
    ExactRuleTests(text);
    assert 'r' in w;
    if text in ["menu", "início", "inicio", "1", "2", "5", "6", "atendente"] {
      NotIncludedByChar(text, w, 'r');
    }
  }

  /** A budget keyword decides the reply, whatever else the text holds:
      "preço" next to "serviço" still asks for a quote. */
  lemma BudgetKeywordWins(message: string, w: string)
    requires w in BudgetKeywords && Includes(Normalize(message), w)
    ensures ProcessMessage(message) == Budget
  {
    var text := Normalize(message);
    CommandsHoldNoBudgetKeyword(text, w);
    FiresOn(Rules[5], text, w);
    FirstMatchWins(message, 5);
  }

  /** The fallback reply quotes the original message, not its normal form. */
  lemma FallbackQuotesOriginal(message: string)
    requires ProcessMessage(message).Fallback?
    ensures var t := FallbackText(ProcessMessage(message).orig);
      QuotedMessage(t) == Some(message)
  {
    FallbackRoundTrip(message);
  }

  // ---------------------------------------------------------------------
  // Worked examples
  // ---------------------------------------------------------------------

  lemma GreetingExample()
    ensures ProcessMessage("oi") == Welcome
  {
    NormalFormIsFixed("oi");
    assert OccursAt("oi", "oi", 0);
  }

  lemma CommandExamples()
    ensures ProcessMessage("2") == Budget
    ensures ProcessMessage(" MENU  ") == Menu
  {
    NormalFormIsFixed("2");
    var padded := " MENU  ";
    assert ToLower(padded) == " " + "menu" + "  ";
    TrimUnique(" ", "menu", "  ");
  }

  lemma BudgetExample()
    ensures ProcessMessage("quero saber o preço") == Budget
  {
    var q := "quero saber o preço";
    NormalFormIsFixed(q);
    assert q == "quero saber o " + "preço" + "";
    IncludesInConcat("quero saber o ", "preço", "");
    BudgetKeywordWins(q, "preço");
  }

  /** A text with neither an 'r' nor a 'p' cannot ask for a quote, for
      services or for payment: every keyword of those groups has one. */
  lemma NoKeywordWithoutRorP(text: string)
    requires 'r' !in text && 'p' !in text
    ensures !Fires(Rules[5], text) && !Fires(Rules[6], text) && !Fires(Rules[7], text)
  {
    BudgetRuleTest(text);
    ServicesRuleTest(text);
    PaymentRuleTest(text);
    NotIncludedByChar(text, "orçamento", 'r');
    NotIncludedByChar(text, "orcamento", 'r');
    NotIncludedByChar(text, "preço", 'r');
    NotIncludedByChar(text, "preco", 'r');
    NotIncludedByChar(text, "serviço", 'r');
    NotIncludedByChar(text, "servico", 'r');
    NotIncludedByChar(text, "formatação", 'r');
    NotIncludedByChar(text, "formatacao", 'r');
    NotIncludedByChar(text, "pagamento", 'p');
    NotIncludedByChar(text, "pagar", 'p');
    NotIncludedByChar(text, "pix", 'p');
  }

  /** "atendimento" is not "atendente": the request below reaches the
      contact group through "humano", and no earlier rule fires on it. */
  lemma ContactSentenceRules()
    ensures forall j :: 0 <= j < 8 ==> !Fires(Rules[j], "atendimento humano")
    ensures Fires(Rules[8], "atendimento humano")
  {
    var f := "atendimento humano";
    ExactRuleTests(f);
    assert forall j :: 0 <= j < 5 ==> !Fires(Rules[j], f);
    NoKeywordWithoutRorP(f);
    assert f == "atendimento " + "humano" + "";
    IncludesInConcat("atendimento ", "humano", "");
    FiresOn(Rules[8], f, "humano");
  }

  lemma ContactExample()
    ensures ProcessMessage("atendimento humano") == Contact
  {
    NormalFormIsFixed("atendimento humano");
    ContactSentenceRules();
    FirstMatchWins("atendimento humano", 8);
  }

  /** "falar com atendente" holds an 'r' and every letter of "orcamento"
      and "formatacao", but only one 'o' where those keywords need two.
      The scenario lemmas take the text as a parameter pinned by their
      precondition, rather than a local literal, which keeps each of their
      proofs small. */
  lemma ScenarioSkipsBudget(f: string)
    requires f == "falar com atendente"
    ensures !Fires(Rules[5], f)
  {
    assert 'ç' !in f && 'p' !in f;
    assert forall a :: 0 <= a < |f| && f[a] == 'o' ==> a == 7;
    BudgetRuleTest(f);
    NotIncludedByChar(f, "orçamento", 'ç');
    NotIncludedByRepeat(f, "orcamento", 'o', 7, 0, 8);
    NotIncludedByChar(f, "preço", 'p');
    NotIncludedByChar(f, "preco", 'p');
  }

  lemma ScenarioSkipsServices(f: string)
    requires f == "falar com atendente"
    ensures !Fires(Rules[6], f)
  {
    assert 'ç' !in f && 's' !in f;
    assert forall a :: 0 <= a < |f| && f[a] == 'o' ==> a == 7;
    ServicesRuleTest(f);
    NotIncludedByChar(f, "serviço", 's');
    NotIncludedByChar(f, "servico", 's');
    NotIncludedByChar(f, "formatação", 'ç');
    NotIncludedByRepeat(f, "formatacao", 'o', 7, 1, 9);
  }

  lemma ScenarioSkipsPayment(f: string)
    requires f == "falar com atendente"
    ensures !Fires(Rules[7], f)
  {
    assert 'p' !in f;
    PaymentRuleTest(f);
    NotIncludedByChar(f, "pagamento", 'p');
    NotIncludedByChar(f, "pagar", 'p');
    NotIncludedByChar(f, "pix", 'p');
  }

  /** On "falar com atendente" the contact rule is the first that fires:
      the text is not the bare command "atendente", and no budget,
      services or payment keyword occurs in it. */
  lemma ContactScenarioRules(f: string)
    requires f == "falar com atendente"
    ensures forall j :: 0 <= j < 8 ==> !Fires(Rules[j], f)
    ensures Fires(Rules[8], f)
  {
    ExactRuleTests(f);
    assert forall j :: 0 <= j < 5 ==> !Fires(Rules[j], f);
    ScenarioSkipsBudget(f);
    ScenarioSkipsServices(f);
    ScenarioSkipsPayment(f);
    assert f == "falar com " + "atendente" + "";
    IncludesInConcat("falar com ", "atendente", "");
    FiresOn(Rules[8], f, "atendente");
  }

  lemma ContactScenario()
    ensures ProcessMessage("falar com atendente") == Contact
  {
    NormalFormIsFixed("falar com atendente");
    ContactScenarioRules("falar com atendente");
    FirstMatchWins("falar com atendente", 8);
  }

  lemma EmptyMessageExample()
    ensures ProcessMessage("") == Fallback("")
    ensures FallbackText("")[|FallbackHead| - 1..|FallbackHead| + 1] == "\"\""
  {
    NormalFormIsFixed("");
  }
}
