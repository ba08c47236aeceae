# Formata e Digita WhatsApp bot: a verified model of its webhook core

The bot is an HTTP service behind the WhatsApp Cloud API. The platform
calls two routes on it:

- `GET /webhook` is a challenge-response handshake. It echoes the challenge
  only when the mode is `subscribe` and the token equals the configured
  secret.
- `POST /webhook` delivers events. The handler digs the first message out
  of a deeply optional JSON payload and classifies its text with
  `processMessage`, which chooses one of six canned replies or a fallback
  that quotes the message. It then sends the reply back to the sender.

The model is pure, in line with the source: datatypes, functions and lemmas.

- `Options.dfy`: `Option`, and `At`, which reads an optional array at an
  index the way `?.[i]` does.
- `JsString.dfy`: the three string built-ins the classifier relies on.
  - `toLowerCase` (`ToLower`) covers ASCII and the Latin-1 capitals.
  - `trim` (`Trim`) drops the ECMAScript whitespace and line-terminator
    characters.
  - `includes` (`Includes`) is characterised by an occurrence. It is
    proved equal to a left-to-right scan, `IncludesScan`.
- `Classifier.dfy`: `ProcessMessage`, which is `Respond` applied to the
  normal form, and the exact text of the fallback template with its
  inverse. It also holds an independent reference reading of the
  classifier as an ordered rule table, `Rules` with `FirstFiring`, and
  the proof that the chain of `if`s is that table read first to last.
- `ClassifierProperties.dfy`: what callers can rely on. This covers the
  exact commands, that the menu is reached only by command, first-match
  priority, insensitivity to case and to surrounding whitespace, and that
  the fallback fires exactly when no rule does. Worked examples close the
  file.
- `Webhook.dfy`: the handshake, the payload levels, the dispatch decision
  and the status of the POST handler.

The canned replies (`MESSAGES`) are represented by tags (`Welcome`, `Menu`,
`Services`, `Budget`, `Payment`, `Contact`). The fallback is the one reply
whose text depends on the input, and it is rendered in full.

A failed outbound send is not swallowed. `sendWhatsAppMessage` rethrows
it (src/index.js:119-122), and the POST handler's `catch` answers 500
(src/index.js:227-230). The model follows the code: see
`Webhook.EventStatus` and `Webhook.FailedSendSurfaces`.

## Model

| member | source | states |
|---|---|---|
| Options.At | src/index.js:208-211 | `xs?.[i]` is present exactly when the array is present, long enough, and holds a non-null element there; that element is the result |
| JsString.IsUpper | src/index.js:129 | the capitals `toLowerCase` changes here (ASCII A-Z, Latin-1 U+00C0-U+00DE without U+00D7); ToLower's pointwise ensures and LowerChar state what becomes of them |
| JsString.ToLower | src/index.js:129 | `toLowerCase` keeps the length of the text, and at every position a capital becomes the code point 32 above it, any other character stays, and no capital remains |
| JsString.LowerChar | src/index.js:129 | an upper-case letter maps to the code point 32 above it, which is no longer upper case; every other character is unchanged |
| JsString.ToLowerConcat | src/index.js:129 | lower-casing distributes over concatenation |
| JsString.ToLowerSlice | src/index.js:129 | lower-casing commutes with taking a slice |
| JsString.ToLowerIdempotent | src/index.js:129 | lower-casing twice is lower-casing once |
| JsString.ToLowerFixes | src/index.js:129 | a text without upper-case letters is left unchanged |
| JsString.LowerKeepsWhitespace | src/index.js:129 | lower-casing neither creates nor removes a whitespace character |
| JsString.IsWhitespace | src/index.js:129 | no character that `trim` removes is a capital |
| JsString.Trim | src/index.js:129 | `trim` never lengthens a text; its result is characterised by TrimShape and TrimUnique |
| JsString.SkipForward | src/index.js:129 | the start of the trimmed part lies inside the string, at or after the starting index |
| JsString.SkipBackward | src/index.js:129 | the end of the trimmed part lies between its start and the end of the string |
| JsString.SkipForwardStops | src/index.js:129 | everything skipped at the front is whitespace, and the scan stops at a visible character or at the end |
| JsString.SkipBackwardStops | src/index.js:129 | everything skipped at the back is whitespace, and the scan stops after a visible character or at the start |
| JsString.SkipForwardAt | src/index.js:129 | any index with only whitespace before it and a visible character (or the end) at it is where the front scan stops |
| JsString.SkipBackwardAt | src/index.js:129 | any index with only whitespace after it and a visible character (or the start) before it is where the back scan stops |
| JsString.TrimShape | src/index.js:129 | `trim` returns a middle slice of its input that begins and ends with a visible character (or is empty), with only whitespace cut on either side |
| JsString.TrimUnique | src/index.js:129 | for any whitespace padding around a trimmed string, `trim` returns exactly that string |
| JsString.TrimIdempotent | src/index.js:129 | trimming twice is trimming once |
| JsString.TrimIgnoresPadding | src/index.js:129 | whitespace added around a string does not change its trim |
| JsString.TrimToLower | src/index.js:129 | lower-casing then trimming equals trimming then lower-casing |
| JsString.Includes | src/index.js:153-172 | `includes` only finds keywords no longer than the text; ScanFindsOccurrence ties it to the scan |
| JsString.IncludesScan | src/index.js:153-172 | the scan only succeeds for a keyword no longer than the text |
| JsString.ScanFindsOccurrence | src/index.js:153-172 | the left-to-right scan finds the keyword exactly when it occurs somewhere in the text (both directions) |
| JsString.IncludesInConcat | src/index.js:153-172 | a keyword placed anywhere in a text is included in it |
| JsString.NotIncludedByChar | src/index.js:153-172 | a text lacking some character of a keyword does not include that keyword |
| JsString.NotIncludedByRepeat | src/index.js:153-172 | a keyword repeating a character is not included in a text holding that character at one position at most |
| Classifier.Normalize | src/index.js:129 | the normal form is never longer than the message; NormalizeIdempotent, NormalizeIgnoresCase and NormalizeIgnoresPadding state what it keeps |
| Classifier.ProcessMessage | src/index.js:128-180 | a fallback reply carries the original, un-normalised message, not its normal form |
| Classifier.Respond | src/index.js:131-179 | a fallback chosen for a normal form quotes the message it was given |
| Classifier.FallbackText | src/index.js:175-179 | the fallback text has the template's length, quote marks just around the message, and the message verbatim between them |
| Classifier.QuotedMessage | src/index.js:175-179 | a message read out of a fallback text has the length the template leaves for it |
| Classifier.FallbackRoundTrip | src/index.js:175-179 | the quoted message read back out of the fallback text is the original message, so different messages give different fallback texts |
| Classifier.FirstFiring | src/index.js:131-172 | the index found is a rule of the table, at or after the starting point |
| Classifier.RuleReply | src/index.js:131-179 | the table's reply is a fallback only for the message it quotes; RespondFollowsRules equates it with the chain |
| Classifier.FirstFiringIsFirst | src/index.js:131-172 | the rule found fires and no earlier rule does; when none is found, no rule from the starting point fires |
| Classifier.Fires | src/index.js:132-172 | the test behind each `if` of the chain over the rule table `Rules` (the ten tests in source order); ExactRuleTests and the five `*RuleTest` lemmas state when each rule fires |
| Classifier.ExactRuleTests | src/index.js:132-150 | the five exact rules fire exactly on "menu"/"início"/"inicio", "1", "2", "5" and "6"/"atendente" |
| Classifier.FiresOn | src/index.js:153-172 | a keyword rule fires on a text that includes one of its words |
| Classifier.BudgetRuleTest | src/index.js:153-155 | the budget rule fires iff the text includes "orçamento", "orcamento", "preço" or "preco" |
| Classifier.ServicesRuleTest | src/index.js:157-159 | the services rule fires iff the text includes "serviço", "servico", "formatação" or "formatacao" |
| Classifier.PaymentRuleTest | src/index.js:161-163 | the payment rule fires iff the text includes "pagamento", "pagar" or "pix" |
| Classifier.ContactRuleTest | src/index.js:165-167 | the contact rule fires iff the text includes "atendente", "humano" or "pessoa" |
| Classifier.GreetingRuleTest | src/index.js:170-172 | the greeting rule fires iff the text includes "oi", "olá", "ola", "bom dia", "boa tarde" or "boa noite" |
| Classifier.RespondFollowsRules | src/index.js:131-179 | for every text, the chain of `if`s gives the reply of the first rule of the table that fires, and the fallback when none does |
| ClassifierProperties.NormalFormIsLowerCase | src/index.js:129 | the normal form holds no upper-case letter |
| ClassifierProperties.NormalFormIsFixed | src/index.js:129 | a trimmed lower-case text is its own normal form |
| ClassifierProperties.NormalizeIdempotent | src/index.js:129 | normalising twice is normalising once |
| ClassifierProperties.NormalizeIgnoresCase | src/index.js:129 | lower-casing the message first does not change its normal form |
| ClassifierProperties.LowerPadding | src/index.js:129 | lower-cased whitespace padding is still whitespace |
| ClassifierProperties.NormalizeIgnoresPadding | src/index.js:129 | whitespace around a message does not change its normal form |
| ClassifierProperties.SameNormalFormSameReply | src/index.js:128-180 | messages with the same normal form get the same reply, except that each fallback quotes its own message |
| ClassifierProperties.CaseAndPaddingDoNotMatter | src/index.js:128-180 | padding and case change no reply other than the fallback's quotation |
| ClassifierProperties.ExactCommands | src/index.js:132-150 | menu/início/inicio give the menu, 1 the services, 2 the budget, 5 the payment, 6/atendente the contact reply, and 3 and 4 the fallback |
| ClassifierProperties.MenuOnlyByExactMatch | src/index.js:132-134 | the menu is the reply iff the normal form is one of its three commands |
| ClassifierProperties.FallbackIffNoRuleFires | src/index.js:131-179 | the fallback is the reply iff no rule of the table fires on the normal form |
| ClassifierProperties.FirstMatchWins | src/index.js:131-172 | the reply is that of the first rule that fires, whatever later rules would say |
| ClassifierProperties.CommandsHoldNoBudgetKeyword | src/index.js:132-155 | no exact command fires on a text that includes a budget keyword |
| ClassifierProperties.BudgetKeywordWins | src/index.js:153-155 | a text including any budget keyword gets the budget reply, whatever else it holds |
| ClassifierProperties.FallbackQuotesOriginal | src/index.js:175-179 | the fallback text of a fallback reply quotes the original message |
| ClassifierProperties.NoKeywordWithoutRorP | src/index.js:153-163 | a text with neither 'r' nor 'p' fires neither the budget, the services nor the payment rule |
| ClassifierProperties.ContactSentenceRules | src/index.js:131-167 | on "atendimento humano" only the contact rule fires among the first nine |
| ClassifierProperties.GreetingExample | src/index.js:170-172 | "oi" gets the welcome |
| ClassifierProperties.CommandExamples | src/index.js:129-142 | "2" gets the budget reply, and " MENU  " gets the menu |
| ClassifierProperties.BudgetExample | src/index.js:153-155 | "quero saber o preço" gets the budget reply |
| ClassifierProperties.ContactExample | src/index.js:165-167 | "atendimento humano" gets the contact reply |
| ClassifierProperties.ScenarioSkipsBudget | src/index.js:153-155 | "falar com atendente" includes no budget keyword; it has one 'o' where "orcamento" needs two |
| ClassifierProperties.ScenarioSkipsServices | src/index.js:157-159 | "falar com atendente" includes no services keyword; it has one 'o' where "formatacao" needs two |
| ClassifierProperties.ScenarioSkipsPayment | src/index.js:161-163 | "falar com atendente" includes no payment keyword |
| ClassifierProperties.ContactScenarioRules | src/index.js:131-167 | on "falar com atendente" rules 0-7 do not fire and the contact rule does |
| ClassifierProperties.ContactScenario | src/index.js:165-167 | "falar com atendente" gets the contact reply |
| ClassifierProperties.EmptyMessageExample | src/index.js:175-179 | the empty message gets the fallback, which shows an empty pair of quotes |
| Webhook.SendStatus | src/index.js:197 | for the three codes the handlers use, `sendStatus` answers with the code and its status text: OK, Forbidden, Internal Server Error |
| Webhook.Verify | src/index.js:185-199 | the handshake answers 200 or 403 and nothing else |
| Webhook.VerifyAccepts | src/index.js:192-198 | 200 iff mode is "subscribe" and the token equals the secret; a success echoes the challenge, and a failure is a bare 403 |
| Webhook.OnlyTheSecretPasses | src/index.js:192 | with a configured secret, a success means the caller presented exactly that secret in subscribe mode |
| Webhook.ChallengeDoesNotDecide | src/index.js:192-198 | the challenge never changes the outcome of the handshake |
| Webhook.UnsetSecretAcceptsMissingToken | src/index.js:192 | with no secret configured (the variable read at line 16 unset), a subscribe request without a token passes |
| Webhook.FirstMessage | src/index.js:208-214 | a first message exists only inside a present, non-empty `entry` array whose first element is present; FirstMessageWhenComplete and MissingLevelMeansNoMessage state the rest |
| Webhook.FirstMessageWhenComplete | src/index.js:208-214 | when `entry[0]`, its `changes[0]` and that change's `value` are present, the first message is `value.messages?.[0]` |
| Webhook.Truthy | src/index.js:213-220 | a truthy string is present and non-empty |
| Webhook.MessageBody | src/index.js:216 | `message.text?.body` is present exactly when `text` and its `body` both are, and is then that body; Dispatch, DispatchSendsIff and IncompletePayloadSkipped state how it decides the send |
| Webhook.Dispatch | src/index.js:213-223 | a send happens only for a first message with a truthy body, and a fallback sent quotes that body; DispatchSendsIff gives both directions |
| Webhook.Inbound | src/index.js:208-216 | the handler's optional chain reads the one inbound message back out of its payload, sender and body unchanged |
| Webhook.MissingLevelMeansNoMessage | src/index.js:208-213 | a missing, null or empty `entry`, `changes`, `value` or `messages` level leaves no first message |
| Webhook.HandleEvent | src/index.js:204-231 | the event handler answers 200 or 500 and nothing else |
| Webhook.DispatchSendsIff | src/index.js:208-223 | a reply is sent iff the first message exists and has a non-empty text body; it goes to that message's sender and is `processMessage` of that body |
| Webhook.InboundDispatch | src/index.js:208-223 | a single inbound message is read back out of its payload, and is answered unless its body is empty |
| Webhook.FallbackQuotesInboundBody | src/index.js:220-222 | a fallback that is sent quotes the inbound body itself |
| Webhook.IncompletePayloadSkipped | src/index.js:213-226 | an event without a first message, or whose first message has no non-empty text body, causes no send and is acknowledged with 200 whatever the send would do |
| Webhook.LaterEntriesIgnored | src/index.js:208 | entries after the first change nothing |
| Webhook.EventStatus | src/index.js:226-229 | the status is 500 iff a reply was due and its send failed (rethrown at lines 119-122); a skipped event is acknowledged with 200 |
| Webhook.FailedSendSurfaces | src/index.js:226-229 | for a well-formed message, a failed send (rethrown at lines 119-122) answers 500 and a successful one 200 |

## Left out

- The Express server, body parsing, `dotenv` configuration, the health
  route `GET /` and the listening port are not modelled. The handlers are
  modelled as functions from their inputs to their answer.
- The outbound call to the Graph API (`axios.post`) is not modelled. Its
  success or failure is a parameter of `HandleEvent`, and its URL,
  headers and request body are not modelled.
- Logging (`console.log`, `console.error`) has no effect on any answer and
  is not modelled.
- Asynchrony and concurrent requests are not modelled. The handler is a
  single function of the payload and the send outcome.
- The texts of the six canned replies are tags. Only the fallback's text,
  which depends on the message, is rendered.
- `JsString.ToLower`: covers ASCII A-Z and the Latin-1 capitals only. It
  does not model the rest of Unicode's case mapping, such as U+0130 or the
  Kelvin sign, and it does not model mappings that change the length of
  the string.
- Strings are sequences of Unicode characters rather than UTF-16 code
  units, so surrogate pairs are not modelled.
- Query parameters that arrive as arrays or objects (repeated `hub.mode`
  keys) are not modelled. Each parameter is a string or missing.
- `Webhook.Message`: payload fields are modelled as missing or of the
  expected shape. A non-string truthy `text.body` would make
  `toLowerCase` throw and the handler answer 500, and that is not
  modelled. Array elements of a non-object type are modelled as messages
  without fields.
- `JSON.stringify` of the request body in the log line is assumed not to
  throw.
