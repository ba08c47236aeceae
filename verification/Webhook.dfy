/** The two webhook routes: the GET verification handshake and the POST
    event handler that answers the first inbound text message. */
module Webhook {
  import opened Options
  import opened Classifier

  /** An HTTP answer: its status code and its body, `None` for a body
      sent as `undefined`. */
  datatype Response = Response(status: nat, body: Option<string>)

  /** The mode the platform sends when it subscribes the endpoint. */
  const SubscribeMode: string := "subscribe"

  /** `res.sendStatus(code)` answers with the status text as its body. */
  function SendStatus(code: nat): (r: Response)
    requires code == 200 || code == 403 || code == 500
    ensures r.status == code
    ensures code == 200 ==> r.body == Some("OK")
    ensures code == 403 ==> r.body == Some("Forbidden")
    ensures code == 500 ==> r.body == Some("Internal Server Error")
  {
    Response(code, Some(
      if code == 200 then "OK"
      else if code == 403 then "Forbidden"
      else "Internal Server Error"))
  }

  // ---------------------------------------------------------------------
  // GET /webhook: the verification handshake
  // ---------------------------------------------------------------------

  /** The handshake on the query parameters `hub.mode`, `hub.verify_token`
      and `hub.challenge`, any of which may be missing, against the
      configured secret, which may be unset. Both comparisons are strict
      equalities of possibly-missing values. */
  function Verify(mode: Option<string>, token: Option<string>, challenge: Option<string>,
                  secret: Option<string>): (r: Response)
    ensures r.status == 200 || r.status == 403
  {
    if mode == Some(SubscribeMode) && token == secret then Response(200, challenge)
    else SendStatus(403)
  }

  /** The handshake succeeds exactly for the subscribe mode and the
      configured secret, and a success echoes the challenge verbatim. */
  lemma VerifyAccepts(mode: Option<string>, token: Option<string>, challenge: Option<string>,
                      secret: Option<string>)
    ensures var r := Verify(mode, token, challenge, secret);
      && (r.status == 200 <==> mode == Some(SubscribeMode) && token == secret)
      && (r.status == 200 ==> r.body == challenge)
      && (r.status != 200 ==> r == Response(403, Some("Forbidden")))
  {
  }

  /** With a configured secret, nobody without it passes: a success proves
      that the caller presented exactly the secret. */
  lemma OnlyTheSecretPasses(mode: Option<string>, token: Option<string>, challenge: Option<string>,
                            secret: string)
    requires Verify(mode, token, challenge, Some(secret)).status == 200
    ensures token == Some(secret) && mode == Some(SubscribeMode)
  {
  }

  /** The challenge decides the body and never the outcome. */
  lemma ChallengeDoesNotDecide(mode: Option<string>, token: Option<string>,
                               c1: Option<string>, c2: Option<string>, secret: Option<string>)
    ensures Verify(mode, token, c1, secret).status == Verify(mode, token, c2, secret).status
  {
  }

  /** With no secret configured, a subscribe request that carries no token
      passes: a missing parameter equals an unset secret. */
  lemma UnsetSecretAcceptsMissingToken(challenge: Option<string>)
    ensures Verify(Some(SubscribeMode), None, challenge, None) == Response(200, challenge)
  {
  }

  // ---------------------------------------------------------------------
  // POST /webhook: the event payload
  // ---------------------------------------------------------------------

  /** The levels of the event payload the handler reads. Every field may be
      missing, and every array element may be missing or null; both are
      `None`. */
  datatype Text = Text(body: Option<string>)
  datatype Message = Message(from: Option<string>, text: Option<Text>)
  datatype Value = Value(messages: Option<seq<Option<Message>>>)
  datatype Change = Change(value: Option<Value>)
  datatype Entry = Entry(changes: Option<seq<Option<Change>>>)
  datatype Payload = Payload(entry: Option<seq<Option<Entry>>>)

  /** `entry?.[0]?.changes?.[0]?.value?.messages`, then its first element. */
  function FirstMessage(p: Payload): (m: Option<Message>)
    ensures m.Some? ==> p.entry.Some? && |p.entry.value| > 0 && p.entry.value[0].Some?
  {
    match At(p.entry, 0)
    case None => None
    case Some(entry) =>
      match At(entry.changes, 0)
      case None => None
      case Some(change) =>
        match change.value
        case None => None
        case Some(value) => At(value.messages, 0)
  }

  /** `message.text?.body`: present exactly when both `text` and its
      `body` are. */
  function MessageBody(m: Message): (r: Option<string>)
    ensures r.Some? <==> m.text.Some? && m.text.value.body.Some?
    ensures r.Some? ==> r == m.text.value.body
  {
    match m.text
    case None => None
    case Some(text) => text.body
  }

  /** JavaScript truthiness of a possibly-missing string. */
  predicate Truthy(s: Option<string>)
    ensures Truthy(s) ==> s.Some? && |s.value| > 0
  {
    s.Some? && s.value != ""
  }

  /** What the handler does with an event: nothing, or send the reply to
      the sender (whose number may be missing). */
  datatype Action = Skip | Send(to: Option<string>, reply: Reply)

  /** The handler's decision: answer the first message when it carries a
      non-empty text body. */
  function Dispatch(p: Payload): (a: Action)
    ensures a.Send? ==> FirstMessage(p).Some? && Truthy(MessageBody(FirstMessage(p).value))
    ensures a.Send? && a.reply.Fallback? ==> Some(a.reply.orig) == MessageBody(FirstMessage(p).value)
  {
    match FirstMessage(p)
    case None => Skip
    case Some(m) =>
      if Truthy(MessageBody(m)) then Send(m.from, ProcessMessage(MessageBody(m).value)) else Skip
  }

  /** The status the handler answers with, given whether the outbound send
      succeeded: 200 once the event is handled, 500 when the send threw. */
  function HandleEvent(p: Payload, sendSucceeds: bool): (r: Response)
    ensures r.status == 200 || r.status == 500
  {
    if Dispatch(p).Send? && !sendSucceeds then SendStatus(500) else SendStatus(200)
  }

  /** The payload of one inbound text message, as the platform sends it. */
  function Inbound(from: string, body: string): (p: Payload)
    ensures FirstMessage(p) == Some(Message(Some(from), Some(Text(Some(body)))))
  {
    Payload(Some([Some(Entry(Some([Some(Change(Some(Value(Some([Some(Message(Some(from), Some(Text(Some(body)))))])))))])))]))
  }

  // ---------------------------------------------------------------------
  // Properties of the event handler
  // ---------------------------------------------------------------------

  /** A reply is sent exactly when the first message has a non-empty text
      body; it goes to that message's sender and answers that body. */
  lemma DispatchSendsIff(p: Payload)
    ensures Dispatch(p).Send? <==>
      exists m :: FirstMessage(p) == Some(m) && Truthy(MessageBody(m))
    ensures Dispatch(p).Send? ==>
      var m := FirstMessage(p).value;
      Dispatch(p) == Send(m.from, ProcessMessage(MessageBody(m).value))
  {
    if FirstMessage(p).Some? {
      var m := FirstMessage(p).value;
      assert FirstMessage(p) == Some(m);
    }
  }

  /** An inbound message is read back out of its payload, and answered
      unless its body is empty. */
  lemma InboundDispatch(from: string, body: string)
    ensures FirstMessage(Inbound(from, body)) == Some(Message(Some(from), Some(Text(Some(body)))))
    ensures Dispatch(Inbound(from, body)) ==
      if body == "" then Skip else Send(Some(from), ProcessMessage(body))
  {
  }

  /** When the fallback is sent, it quotes the inbound body itself. */
  lemma FallbackQuotesInboundBody(p: Payload)
    requires Dispatch(p).Send? && Dispatch(p).reply.Fallback?
    ensures Some(Dispatch(p).reply.orig) == MessageBody(FirstMessage(p).value)
  {
  }

  /** Each level of the payload that is missing, null, or an empty array
      leaves the handler without a first message. */
  lemma MissingLevelMeansNoMessage(p: Payload)
    ensures At(p.entry, 0).None? ==> FirstMessage(p).None?
    ensures At(p.entry, 0).Some? ==>
      var changes := At(At(p.entry, 0).value.changes, 0);
      && (changes.None? ==> FirstMessage(p).None?)
      && (changes.Some? && changes.value.value.None? ==> FirstMessage(p).None?)
      && ((changes.Some? && changes.value.value.Some?
           && At(changes.value.value.value.messages, 0).None?) ==> FirstMessage(p).None?)
  {
  }

  /** When every level is present, the first message is the first element
      of `messages`. */
  lemma FirstMessageWhenComplete(p: Payload)
    ensures At(p.entry, 0).Some? ==>
      var changes := At(At(p.entry, 0).value.changes, 0);
      ((changes.Some? && changes.value.value.Some?) ==>
         FirstMessage(p) == At(changes.value.value.value.messages, 0))
  {
  }

  /** An event without a first message, or whose first message has no
      non-empty text body, causes no send and is acknowledged with 200,
      whatever the send would have done. */
  lemma IncompletePayloadSkipped(p: Payload)
    requires FirstMessage(p).None? || !Truthy(MessageBody(FirstMessage(p).value))
    ensures Dispatch(p) == Skip
    ensures forall ok :: HandleEvent(p, ok) == Response(200, Some("OK"))
  {
  }

  /** Only the first entry counts: more entries after it change nothing. */
  lemma LaterEntriesIgnored(entries: seq<Option<Entry>>, more: seq<Option<Entry>>)
    requires |entries| > 0
    ensures Dispatch(Payload(Some(entries + more))) == Dispatch(Payload(Some(entries)))
  {
    assert (entries + more)[0] == entries[0];
  }

  /** A skipped event and a delivered reply are both acknowledged with 200;
      the status is 500 exactly when a reply was due and its send threw. */
  lemma EventStatus(p: Payload, sendSucceeds: bool)
    ensures HandleEvent(p, sendSucceeds).status == 500 <==> Dispatch(p).Send? && !sendSucceeds
    ensures Dispatch(p) == Skip ==> HandleEvent(p, sendSucceeds) == Response(200, Some("OK"))
  {
  }

  /** The handler does not always acknowledge: a send that fails on a
      well-formed message surfaces as 500. */
  lemma FailedSendSurfaces(from: string, body: string)
    requires body != ""
    ensures HandleEvent(Inbound(from, body), false).status == 500
    ensures HandleEvent(Inbound(from, body), true).status == 200
  {
    InboundDispatch(from, body);
  }
}
