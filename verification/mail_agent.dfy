/**
  The decision logic of `N8nEmailSender` and `EmailAgent` in mail-agent.py.

  The language model and the webhook are outside the model: a `Services`
  value answers each request, and every function returns, beside its
  result, the list of outside calls it made (`Call`), so that the contracts
  can say which requests were made, with what payload, and when no request
  was made at all.
 */
module MailAgent {
  import opened Wrappers
  import EmailPattern
  import SubjectPattern

  // ---------------------------------------------------------------- configuration

  /** The sender's configuration, read once from the environment and never changed. */
  datatype Sender = Sender(webhookUrl: string, apiKey: string, googleApiKey: string)

  const MissingWebhookSettings: string := "N8N_WEBHOOK_URL and N8N_API_KEY must be set in environment variables"
  const MissingGoogleKey: string := "GOOGLE_API_KEY must be set in environment variables"

  /** An environment variable counts as set when it is present and not empty. */
  predicate IsSet(v: Option<string>) {
    v.Some? && v.value != ""
  }

  /**
    `N8nEmailSender.__init__`: the webhook settings are checked first, then
    the model key; an error carries the message of the `ValueError` raised.
   */
  function NewSender(webhookUrl: Option<string>, apiKey: Option<string>, googleApiKey: Option<string>): (r: Result<Sender, string>)
    ensures r.Ok? <==> IsSet(webhookUrl) && IsSet(apiKey) && IsSet(googleApiKey)
    ensures r.Ok? ==> r.value == Sender(webhookUrl.value, apiKey.value, googleApiKey.value)
    ensures !IsSet(webhookUrl) || !IsSet(apiKey) ==> r == Err(MissingWebhookSettings)
    ensures IsSet(webhookUrl) && IsSet(apiKey) && !IsSet(googleApiKey) ==> r == Err(MissingGoogleKey)
  {
    if !IsSet(webhookUrl) || !IsSet(apiKey) then Err(MissingWebhookSettings)
    else if !IsSet(googleApiKey) then Err(MissingGoogleKey)
    else Ok(Sender(webhookUrl.value, apiKey.value, googleApiKey.value))
  }

  // ---------------------------------------------------------------- the outside world

  /** A request to the language model: which instruction template wraps which text. */
  datatype LlmRequest =
    | ExtractionRequest(userPrompt: string)   // the template of `_parse_prompt` around the user's prompt
    | ContentRequest(prompt: string)          // the template of `generate_llm_content` around its argument

  /** What one `generate_content` call gave back. */
  datatype LlmReply =
    | Reply(text: string)       // a response; its text may be empty
    | NoResponse                // a missing response
    | Raised(error: string)     // the call raised

  /** The JSON body posted to the webhook. */
  datatype Payload = Payload(recipient: string, subject: string, content: string, templateId: Option<string>)

  /** One POST: target URL, the `X-N8N-API-KEY` header, and the body. */
  datatype WebhookRequest = WebhookRequest(url: string, apiKey: string, payload: Payload)

  /** What one POST gave back. */
  datatype PostReply = Status(code: int) | TransportError(error: string)

  /** One call to the outside world. */
  datatype Call = Generate(request: LlmRequest) | Post(post: WebhookRequest)

  /** How the outside world answers, for one user prompt. */
  datatype Services = Services(llm: LlmRequest -> LlmReply, webhook: WebhookRequest -> PostReply)

  /** `response and response.text`: the reply carries text that is not empty. */
  predicate Usable(reply: LlmReply) {
    reply.Reply? && reply.text != ""
  }

  /** `response.text` where it is read; a reply without text gives the empty string. */
  function ReplyText(reply: LlmReply): string {
    if reply.Reply? then reply.text else ""
  }

  // ---------------------------------------------------------------- N8nEmailSender

  /**
    `generate_llm_content`: the text of the model's reply to the content
    template around `prompt`; `None` for a missing or empty reply or a
    raised error.
   */
  function GenerateLlmContent(prompt: string, svc: Services): (r: Option<string>)
    ensures r.Some? <==> Usable(svc.llm(ContentRequest(prompt)))
    ensures r.Some? ==> r.value != "" && svc.llm(ContentRequest(prompt)) == Reply(r.value)
  {
    var reply := svc.llm(ContentRequest(prompt));
    if Usable(reply) then Some(reply.text) else None
  }

  /** The result of `send_email`, with the calls it made. */
  datatype Sent = Sent(ok: bool, calls: seq<Call>)

  /**
    `send_email`: generate the content, and only if there is some, post the
    four-key payload; success means status 200. Every failure, raised or not,
    becomes `false`.
   */
  function SendEmail(sender: Sender, recipient: string, subject: string, prompt: string, templateId: Option<string>, svc: Services): (r: Sent)
    ensures var reply := svc.llm(ContentRequest(prompt));
      var post := WebhookRequest(sender.webhookUrl, sender.apiKey, Payload(recipient, subject, ReplyText(reply), templateId));
      && (r.ok <==> Usable(reply) && svc.webhook(post) == Status(200))
      && r.calls == [Generate(ContentRequest(prompt))] + (if Usable(reply) then [Post(post)] else [])
  {
    var generate := Generate(ContentRequest(prompt));
    match GenerateLlmContent(prompt, svc)
    case None => Sent(false, [generate])
    case Some(content) =>
      var post := WebhookRequest(sender.webhookUrl, sender.apiKey, Payload(recipient, subject, content, templateId));
      Sent(svc.webhook(post) == Status(200), [generate, Post(post)])
  }

  // ---------------------------------------------------------------- EmailAgent

  /** The dictionary `_parse_prompt` returns. */
  datatype EmailDetails = EmailDetails(recipient: string, subject: string, contentPrompt: string, templateId: Option<string>)

  /** The result of `_parse_prompt` (`None` for failure), with the calls it made. */
  datatype Parsed = Parsed(details: Option<EmailDetails>, calls: seq<Call>)

  /**
    `_parse_prompt`: extract the recipient and the subject, give up before any
    model call when there is no recipient, then ask the model about the whole
    prompt and keep its text as `content_prompt`.
   */
  function ParsePrompt(prompt: string, svc: Services): (r: Parsed)
    ensures EmailPattern.FindRecipient(prompt).None? ==> r == Parsed(None, [])
    ensures EmailPattern.FindRecipient(prompt).Some? ==>
      var reply := svc.llm(ExtractionRequest(prompt));
      && r.calls == [Generate(ExtractionRequest(prompt))]
      && (r.details.Some? <==> Usable(reply))
      && (r.details.Some? ==> r.details.value == EmailDetails(EmailPattern.FindRecipient(prompt).value,
                                                               SubjectPattern.ExtractSubject(prompt), ReplyText(reply), None))
  {
    var recipient := EmailPattern.FindRecipient(prompt);
    var subject := SubjectPattern.ExtractSubject(prompt);
    if recipient.None? then Parsed(None, [])
    else
      var request := ExtractionRequest(prompt);
      var reply := svc.llm(request);
      if !Usable(reply) then Parsed(None, [Generate(request)])
      else Parsed(Some(EmailDetails(recipient.value, subject, reply.text, None)), [Generate(request)])
  }

  // Written in two pieces so that the verifier can read off the first characters
  // (`NoErrorMessage`) without unfolding one long literal.
  const CouldNotExtract: string := "Could not extract " + "email details from the prompt"
  const FailedToSend: string := "Failed to send email"
  const SentPrefix: string := "Email sent successfully to "

  /** What `process_user_prompt` returns, with the calls made on the way. */
  datatype Outcome = Outcome(success: bool, message: string, calls: seq<Call>)

  /**
    `process_user_prompt`: parse, then send with the parsed `content_prompt`
    as the prompt, and turn the two results into a status and a message.
   */
  function ProcessUserPrompt(sender: Sender, prompt: string, svc: Services): (r: Outcome)
    ensures r.success ==>
      EmailPattern.FindRecipient(prompt).Some? && r.message == SentPrefix + EmailPattern.FindRecipient(prompt).value
    ensures !r.success ==> r.message == CouldNotExtract || r.message == FailedToSend
    ensures |r.calls| <= 3 && forall k :: 0 <= k < |r.calls| - 1 ==> r.calls[k].Generate?
  {
    var parsed := ParsePrompt(prompt, svc);
    match parsed.details
    case None => Outcome(false, CouldNotExtract, parsed.calls)
    case Some(d) =>
      var sent := SendEmail(sender, d.recipient, d.subject, d.contentPrompt, d.templateId, svc);
      if sent.ok then Outcome(true, SentPrefix + d.recipient, parsed.calls + sent.calls)
      else Outcome(false, FailedToSend, parsed.calls + sent.calls)
  }

  // ---------------------------------------------------------------- properties

  /**
    The whole decision of `process_user_prompt`, in terms of the recipient
    search and the three answers of the outside world: no recipient means no
    call at all; an unusable first generation means no send; otherwise the
    model is asked a second time, about the first generation's text, and only
    a usable second generation is posted, with that text as the content.
   */
  lemma ProcessOutcomes(sender: Sender, prompt: string, svc: Services)
    ensures var r := ProcessUserPrompt(sender, prompt, svc);
      var first := svc.llm(ExtractionRequest(prompt));
      var second := svc.llm(ContentRequest(ReplyText(first)));
      match EmailPattern.FindRecipient(prompt)
      case None => r == Outcome(false, CouldNotExtract, [])
      case Some(recipient) =>
        if !Usable(first) then
          r == Outcome(false, CouldNotExtract, [Generate(ExtractionRequest(prompt))])
        else if !Usable(second) then
          r == Outcome(false, FailedToSend, [Generate(ExtractionRequest(prompt)), Generate(ContentRequest(ReplyText(first)))])
        else
          var post := WebhookRequest(sender.webhookUrl, sender.apiKey,
                                     Payload(recipient, SubjectPattern.ExtractSubject(prompt), ReplyText(second), None));
          var calls := [Generate(ExtractionRequest(prompt)), Generate(ContentRequest(ReplyText(first))), Post(post)];
          if svc.webhook(post) == Status(200) then r == Outcome(true, SentPrefix + recipient, calls)
          else r == Outcome(false, FailedToSend, calls)
  {
  }

  /**
    The prompt succeeds exactly when a recipient is found, both generations
    are usable, and the webhook answers 200 to the POST.
   */
  lemma SuccessIff(sender: Sender, prompt: string, svc: Services)
    ensures var first := svc.llm(ExtractionRequest(prompt));
      var second := svc.llm(ContentRequest(ReplyText(first)));
      ProcessUserPrompt(sender, prompt, svc).success <==>
        && EmailPattern.FindRecipient(prompt).Some?
        && Usable(first) && Usable(second)
        && svc.webhook(WebhookRequest(sender.webhookUrl, sender.apiKey,
             Payload(EmailPattern.FindRecipient(prompt).value, SubjectPattern.ExtractSubject(prompt), ReplyText(second), None)))
           == Status(200)
  {
    ProcessOutcomes(sender, prompt, svc);
  }

  /**
    Whatever is posted carries the recipient, the subject, no template and,
    as content, the second generation: the model's answer about the text of
    its first answer, not about the user's prompt.
   */
  lemma PostedContentIsSecondGeneration(sender: Sender, prompt: string, svc: Services, k: nat)
    requires k < |ProcessUserPrompt(sender, prompt, svc).calls|
    requires ProcessUserPrompt(sender, prompt, svc).calls[k].Post?
    ensures var first := svc.llm(ExtractionRequest(prompt));
      var post := ProcessUserPrompt(sender, prompt, svc).calls[k].post;
      && EmailPattern.FindRecipient(prompt).Some?
      && post == WebhookRequest(sender.webhookUrl, sender.apiKey,
           Payload(EmailPattern.FindRecipient(prompt).value, SubjectPattern.ExtractSubject(prompt),
                   ReplyText(svc.llm(ContentRequest(ReplyText(first)))), None))
      && Usable(first) && Usable(svc.llm(ContentRequest(ReplyText(first))))
  {
    ProcessOutcomes(sender, prompt, svc);
  }

  /** A failed second generation is reported as a failed send, not as a failed extraction, and nothing is posted. */
  lemma SecondGenerationFailureIsSendFailure(sender: Sender, prompt: string, svc: Services)
    requires EmailPattern.FindRecipient(prompt).Some?
    requires Usable(svc.llm(ExtractionRequest(prompt)))
    requires !Usable(svc.llm(ContentRequest(ReplyText(svc.llm(ExtractionRequest(prompt))))))
    ensures var r := ProcessUserPrompt(sender, prompt, svc);
      && r.success == false && r.message == FailedToSend
      && forall k :: 0 <= k < |r.calls| ==> r.calls[k].Generate?
  {
    ProcessOutcomes(sender, prompt, svc);
  }

  /**
    The `except` branch of `process_user_prompt` is never reached: every
    failure of the outside world is caught lower down, so no message starts
    with "Error: ".
   */
  lemma NoErrorMessage(sender: Sender, prompt: string, svc: Services)
    ensures var m := ProcessUserPrompt(sender, prompt, svc).message;
      !(|m| >= 7 && m[..7] == "Error: ")
  {
    var r := ProcessUserPrompt(sender, prompt, svc);
    var m := r.message;
    assert |m| > 1 && m[1] != 'r' by {
      if r.success {
        assert m[1] == SentPrefix[1] == 'm';
      } else if m == CouldNotExtract {
        assert m[1] == CouldNotExtract[1] == 'o';
      } else {
        assert m[1] == FailedToSend[1] == 'a';
      }
    }
    SecondCharRulesOutError(m);
  }

  /** A message whose second character is not `r` does not start with `Error: `. */
  lemma SecondCharRulesOutError(m: string)
    requires |m| > 1 && m[1] != 'r'
    ensures !(|m| >= 7 && m[..7] == "Error: ")
  {
    if |m| >= 7 {
      assert m[..7][1] == m[1];
    }
  }
}
