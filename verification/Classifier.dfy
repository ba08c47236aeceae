/** The reply classifier `processMessage`: lower-case and trim the inbound
    text, try the exact commands, then the keyword groups, first match wins,
    and otherwise fall back to a template quoting the original text. */
module Classifier {
  import opened Options
  import opened JsString

  /** The reply chosen for a message. The six canned replies stand for the
      fixed texts of the bot's message table; the fallback carries the
      original, un-normalised message it quotes. */
  datatype Reply = Welcome | Menu | Services | Budget | Payment | Contact | Fallback(orig: string)

  /** `message.toLowerCase().trim()`. */
  function Normalize(message: string): (t: string)
    ensures |t| <= |message|
  {
    Trim(ToLower(message))
  }

  /** `processMessage`: normalise the message, then answer the normal form. */
  function ProcessMessage(message: string): (r: Reply)
    ensures r.Fallback? ==> r.orig == message
  {
    Respond(Normalize(message), message)
  }

  /** The rules of `processMessage` applied to the normalised `text`:
      exact commands first, then the keyword groups budget, services,
      payment, contact and greeting, then the fallback quoting `message`. */
  function Respond(text: string, message: string): (r: Reply)
    ensures r.Fallback? ==> r.orig == message
  {
    if text == "menu" || text == "início" || text == "inicio" then Menu
    else if text == "1" then Services
    else if text == "2" then Budget
    else if text == "5" then Payment
    else if text == "6" || text == "atendente" then Contact
    else if Includes(text, "orçamento") || Includes(text, "orcamento")
         || Includes(text, "preço") || Includes(text, "preco") then Budget
    else if Includes(text, "serviço") || Includes(text, "servico")
         || Includes(text, "formatação") || Includes(text, "formatacao") then Services
    else if Includes(text, "pagamento") || Includes(text, "pagar") || Includes(text, "pix") then Payment
    else if Includes(text, "atendente") || Includes(text, "humano") || Includes(text, "pessoa") then Contact
    else if Includes(text, "oi") || Includes(text, "olá") || Includes(text, "ola")
         || Includes(text, "bom dia") || Includes(text, "boa tarde") || Includes(text, "boa noite") then Welcome
    else Fallback(message)
  }

  // ---------------------------------------------------------------------
  // The fallback template
  // ---------------------------------------------------------------------

  const FallbackHead: string := "Recebi sua mensagem: \""
  const FallbackTail: string := "\"" + FallbackNotice
  const FallbackNotice: string := "\n\nUm momento! Vou encaminhar para nossa equipe.\n\nEnquanto isso, digite *MENU* para ver nossas opções ou *ATENDENTE* para falar com um especialista."

  /** The text of the fallback reply: the original message, verbatim,
      between double quotes. */
  function FallbackText(message: string): (r: string)
    ensures |r| == |FallbackHead| + |message| + |FallbackTail|
    ensures r[|FallbackHead| - 1] == '"' && r[|FallbackHead| + |message|] == '"'
    ensures r[|FallbackHead|..|FallbackHead| + |message|] == message
  {
    FallbackHead + message + FallbackTail
  }

  /** Reads the quoted message back out of a fallback text. */
  function QuotedMessage(text: string): (r: Option<string>)
    ensures r.Some? ==> |FallbackHead| + |r.value| + |FallbackTail| == |text|
  {
    if |text| >= |FallbackHead| + |FallbackTail|
       && text[..|FallbackHead|] == FallbackHead
       && text[|text| - |FallbackTail|..] == FallbackTail
    then Some(text[|FallbackHead|..|text| - |FallbackTail|])
    else None
  }

  /** The fallback text loses nothing: the original message can be read
      back out of it, so different messages give different texts. */
  lemma FallbackRoundTrip(message: string)
    ensures QuotedMessage(FallbackText(message)) == Some(message)
  {
    var t := FallbackText(message);
    assert t[..|FallbackHead|] == FallbackHead;
    assert t[|t| - |FallbackTail|..] == FallbackTail;
  }

  // ---------------------------------------------------------------------
  // The rules as an ordered table
  // ---------------------------------------------------------------------

  datatype Test = Exact | Substring

  /** One rule: its test, the words it tests for and the reply it gives. */
  datatype Rule = Rule(test: Test, words: seq<string>, reply: Reply)

  const BudgetKeywords: seq<string> := ["orçamento", "orcamento", "preço", "preco"]
  const ServicesKeywords: seq<string> := ["serviço", "servico", "formatação", "formatacao"]
  const PaymentKeywords: seq<string> := ["pagamento", "pagar", "pix"]
  const ContactKeywords: seq<string> := ["atendente", "humano", "pessoa"]
  const GreetingKeywords: seq<string> := ["oi", "olá", "ola", "bom dia", "boa tarde", "boa noite"]

  /** The classifier's rules in priority order. */
  const Rules: seq<Rule> := [
    Rule(Exact, ["menu", "início", "inicio"], Menu),
    Rule(Exact, ["1"], Services),
    Rule(Exact, ["2"], Budget),
    Rule(Exact, ["5"], Payment),
    Rule(Exact, ["6", "atendente"], Contact),
    Rule(Substring, BudgetKeywords, Budget),
    Rule(Substring, ServicesKeywords, Services),
    Rule(Substring, PaymentKeywords, Payment),
    Rule(Substring, ContactKeywords, Contact),
    Rule(Substring, GreetingKeywords, Welcome)
  ]

  /** Whether `rule` matches the normalised text. */
  predicate Fires(rule: Rule, text: string) {
    match rule.test
    case Exact => text in rule.words
    case Substring => exists w :: w in rule.words && Includes(text, w)
  }

  /** The index of the first rule of `rules`, from index `i` on, that fires
      on `text`. */
  function FirstFiring(rules: seq<Rule>, text: string, i: nat): (r: Option<nat>)
    ensures r.Some? ==> i <= r.value < |rules|
    decreases |rules| - i
  {
    if i >= |rules| then None
    else if Fires(rules[i], text) then Some(i)
    else FirstFiring(rules, text, i + 1)
  }

  /** `FirstFiring` finds the first rule that fires, or reports that none
      does. */
  lemma {:induction false} FirstFiringIsFirst(rules: seq<Rule>, text: string, i: nat)
    ensures var r := FirstFiring(rules, text, i);
      && (r.Some? ==> Fires(rules[r.value], text))
      && (r.Some? ==> forall j :: i <= j < r.value ==> !Fires(rules[j], text))
      && (r.None? ==> forall j :: i <= j < |rules| ==> !Fires(rules[j], text))
    decreases |rules| - i
  {
    if i < |rules| && !Fires(rules[i], text) {
      FirstFiringIsFirst(rules, text, i + 1);
    }
  }

  /** The reply read off the rule table for the normalised `text`. */
  function RuleReply(text: string, message: string): (r: Reply)
    ensures r.Fallback? ==> r.orig == message
  {
    match FirstFiring(Rules, text, 0)
    case Some(k) => Rules[k].reply
    case None => Fallback(message)
  }

  /** Rules 0 to 4 test the normalised text for equality. */
  lemma ExactRuleTests(text: string)
    ensures Fires(Rules[0], text) <==> (text == "menu" || text == "início" || text == "inicio")
    ensures Fires(Rules[1], text) <==> text == "1"
    ensures Fires(Rules[2], text) <==> text == "2"
    ensures Fires(Rules[3], text) <==> text == "5"
    ensures Fires(Rules[4], text) <==> (text == "6" || text == "atendente")
  {
  }

  lemma FiresOn(rule: Rule, text: string, w: string)
    requires rule.test == Substring && w in rule.words && Includes(text, w)
    ensures Fires(rule, text)
  {
  }

  lemma BudgetRuleTest(text: string)
    ensures Fires(Rules[5], text) <==>
      (Includes(text, "orçamento") || Includes(text, "orcamento")
       || Includes(text, "preço") || Includes(text, "preco"))
  {
    var rule := Rules[5];
    if Includes(text, "orçamento") { FiresOn(rule, text, "orçamento"); }
    if Includes(text, "orcamento") { FiresOn(rule, text, "orcamento"); }
    if Includes(text, "preço") { FiresOn(rule, text, "preço"); }
    if Includes(text, "preco") { FiresOn(rule, text, "preco"); }
  }

  lemma ServicesRuleTest(text: string)
    ensures Fires(Rules[6], text) <==>
      (Includes(text, "serviço") || Includes(text, "servico")
       || Includes(text, "formatação") || Includes(text, "formatacao"))
  {
    var rule := Rules[6];
    if Includes(text, "serviço") { FiresOn(rule, text, "serviço"); }
    if Includes(text, "servico") { FiresOn(rule, text, "servico"); }
    if Includes(text, "formatação") { FiresOn(rule, text, "formatação"); }
    if Includes(text, "formatacao") { FiresOn(rule, text, "formatacao"); }
  }

  lemma PaymentRuleTest(text: string)
    ensures Fires(Rules[7], text) <==>
      (Includes(text, "pagamento") || Includes(text, "pagar") || Includes(text, "pix"))
  {
    var rule := Rules[7];
    if Includes(text, "pagamento") { FiresOn(rule, text, "pagamento"); }
    if Includes(text, "pagar") { FiresOn(rule, text, "pagar"); }
    if Includes(text, "pix") { FiresOn(rule, text, "pix"); }
  }

  lemma ContactRuleTest(text: string)
    ensures Fires(Rules[8], text) <==>
      (Includes(text, "atendente") || Includes(text, "humano") || Includes(text, "pessoa"))
  {
    var rule := Rules[8];
    if Includes(text, "atendente") { FiresOn(rule, text, "atendente"); }
    if Includes(text, "humano") { FiresOn(rule, text, "humano"); }
    if Includes(text, "pessoa") { FiresOn(rule, text, "pessoa"); }
  }

  lemma GreetingRuleTest(text: string)
    ensures Fires(Rules[9], text) <==>
      (Includes(text, "oi") || Includes(text, "olá") || Includes(text, "ola")
       || Includes(text, "bom dia") || Includes(text, "boa tarde") || Includes(text, "boa noite"))
  {
    var rule := Rules[9];
    if Includes(text, "oi") { FiresOn(rule, text, "oi"); }
    if Includes(text, "olá") { FiresOn(rule, text, "olá"); }
    if Includes(text, "ola") { FiresOn(rule, text, "ola"); }
    if Includes(text, "bom dia") { FiresOn(rule, text, "bom dia"); }
    if Includes(text, "boa tarde") { FiresOn(rule, text, "boa tarde"); }
    if Includes(text, "boa noite") { FiresOn(rule, text, "boa noite"); }
  }

  /** The chain of `if`s is exactly the rule table read first to last. */
  lemma RespondFollowsRules(text: string, message: string)
    ensures Respond(text, message) == RuleReply(text, message)
  {
    ExactRuleTests(text);
    BudgetRuleTest(text);
    ServicesRuleTest(text);
    PaymentRuleTest(text);
    ContactRuleTest(text);
    GreetingRuleTest(text);
    assert FirstFiring(Rules, text, 10) == None;
    assert FirstFiring(Rules, text, 9) == if Fires(Rules[9], text) then Some(9) else None;
    assert FirstFiring(Rules, text, 8) == if Fires(Rules[8], text) then Some(8) else FirstFiring(Rules, text, 9);
    assert FirstFiring(Rules, text, 7) == if Fires(Rules[7], text) then Some(7) else FirstFiring(Rules, text, 8);
    assert FirstFiring(Rules, text, 6) == if Fires(Rules[6], text) then Some(6) else FirstFiring(Rules, text, 7);
    assert FirstFiring(Rules, text, 5) == if Fires(Rules[5], text) then Some(5) else FirstFiring(Rules, text, 6);
    assert FirstFiring(Rules, text, 4) == if Fires(Rules[4], text) then Some(4) else FirstFiring(Rules, text, 5);
    assert FirstFiring(Rules, text, 3) == if Fires(Rules[3], text) then Some(3) else FirstFiring(Rules, text, 4);
    assert FirstFiring(Rules, text, 2) == if Fires(Rules[2], text) then Some(2) else FirstFiring(Rules, text, 3);
    assert FirstFiring(Rules, text, 1) == if Fires(Rules[1], text) then Some(1) else FirstFiring(Rules, text, 2);
    assert FirstFiring(Rules, text, 0) == if Fires(Rules[0], text) then Some(0) else FirstFiring(Rules, text, 1);
  }
}
