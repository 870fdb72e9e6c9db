/**
  Whole-prompt runs of `process_user_prompt` on fixed prompts, with the
  language model and the webhook answering in a fixed way.
 */
module Scenarios {
  import opened Wrappers
  import opened Text
  import opened MailAgent
  import EmailPattern
  import SubjectPattern

  /** The text every generation returns in the scenarios that generate. */
  const Generated: string := "Hi Alice, ..."

  /**
    The recipient and the subject of the meeting-notes prompt, given in its
    pieces: the text before the address, the address, a space, the keyword,
    the subject text and the rest from the comma on.

    The pieces are passed as parameters, each fixed by a `requires`, so that
    the proof reasons about the concatenation piece by piece instead of
    unfolding the searches over one long literal.
   */
  lemma MeetingPromptDetails(s: string, before: string, address: string, gap: string, keyword: string, capture: string, rest: string)
    requires before == "send a mail to " && address == "alice@example.com" && gap == " " && keyword == "subject:"
    requires capture == "Meeting Notes" && rest == ", please summarize yesterday's call"
    requires s == before + address + gap + keyword + capture + rest
    ensures EmailPattern.FindRecipient(s) == Some("alice@example.com")
    ensures SubjectPattern.ExtractSubject(s) == "Meeting Notes"
  {
    MeetingRecipient(s, before, address, gap, keyword, capture, rest);
    MeetingSubject(s, before, address, gap, keyword, capture, rest);
  }

  /** `alice@example.com`, with a space on either side and no `@` before it, is the recipient. */
  lemma MeetingRecipient(s: string, before: string, address: string, gap: string, keyword: string, capture: string, rest: string)
    requires before == "send a mail to " && address == "alice@example.com" && gap == " " && keyword == "subject:"
    requires capture == "Meeting Notes" && rest == ", please summarize yesterday's call"
    requires s == before + address + gap + keyword + capture + rest
    ensures EmailPattern.FindRecipient(s) == Some("alice@example.com")
  {
    var after := gap + keyword + capture + rest;
    assert s == before + address + after;
    MeetingLeadHasNoAtSign(before);
    AliceIsAddress(address);
    assert after[0] == ' ';
    EmailPattern.RecipientOfDelimitedAddress(before, address, after);
  }

  /** `send a mail to ` holds no `@` and ends in a space. */
  lemma MeetingLeadHasNoAtSign(before: string)
    requires before == "send a mail to "
    ensures forall k :: 0 <= k < |before| ==> before[k] != '@'
    ensures !IsAddrChar(before[|before| - 1])
  {
  }

  /** The pattern matches all of `alice@example.com`. */
  lemma AliceIsAddress(address: string)
    requires address == "alice@example.com"
    ensures EmailPattern.IsEmailAddress(address)
  {
    assert EmailPattern.EmailShape(address, 0, 5, 13, |address|);
  }

  /** `subject:Meeting Notes,` after text without a colon gives the subject `Meeting Notes`. */
  lemma MeetingSubject(s: string, before: string, address: string, gap: string, keyword: string, capture: string, rest: string)
    requires before == "send a mail to " && address == "alice@example.com" && gap == " " && keyword == "subject:"
    requires capture == "Meeting Notes" && rest == ", please summarize yesterday's call"
    requires s == before + address + gap + keyword + capture + rest
    ensures SubjectPattern.ExtractSubject(s) == "Meeting Notes"
  {
    var lead := before + address + gap;
    MeetingLeadHasNoColon(lead, before, address, gap);
    assert forall k :: 0 <= k < |capture| ==> capture[k] != ',';
    SubjectPattern.SubjectAfterPlainMarker(lead, capture, rest);
    assert !IsSpace(capture[0]) && !IsSpace(capture[|capture| - 1]);
    AlreadyStripped(capture);
  }

  /** `send a mail to alice@example.com ` holds no colon. */
  lemma MeetingLeadHasNoColon(lead: string, before: string, address: string, gap: string)
    requires before == "send a mail to " && address == "alice@example.com" && gap == " "
    requires lead == before + address + gap
    ensures forall k :: 0 <= k < |lead| ==> lead[k] != ':'
  {
    assert forall k :: 0 <= k < |before| ==> before[k] != ':';
    assert forall k :: 0 <= k < |address| ==> address[k] != ':';
    forall k | 0 <= k < |lead| ensures lead[k] != ':' {
      if k < |before| {
        assert lead[k] == before[k];
      } else if k < |before| + |address| {
        assert lead[k] == address[k - |before|];
      } else {
        assert lead[k] == ' ';
      }
    }
  }

  /** A text that neither starts nor ends with whitespace is its own `strip()`. */
  lemma AlreadyStripped(t: string)
    requires t != [] && !IsSpace(t[0]) && !IsSpace(t[|t| - 1])
    ensures Strip(t) == t
  {
    assert IsTrimmedInfix(t, t) by {
      assert t[..0] == [] && t[|t|..] == [] && t[0..|t|] == t;
    }
    TrimmedInfixIsStrip(t, t);
  }

  /** Meeting notes for Alice: both generations give text and the webhook answers 200, so the mail is reported sent. */
  lemma MeetingPromptIsSent(sender: Sender, s: string, svc: Services)
    requires s == "send a mail to " + "alice@example.com" + " " + "subject:" + "Meeting Notes" + ", please summarize yesterday's call"
    requires forall request :: svc.llm(request) == Reply(Generated)
    requires forall post :: svc.webhook(post) == Status(200)
    ensures ProcessUserPrompt(sender, s, svc) ==
      Outcome(true, SentPrefix + "alice@example.com",
              [Generate(ExtractionRequest(s)), Generate(ContentRequest(Generated)),
               Post(WebhookRequest(sender.webhookUrl, sender.apiKey,
                                   Payload("alice@example.com", "Meeting Notes", Generated, None)))])
  {
    MeetingPromptDetails(s, "send a mail to ", "alice@example.com", " ", "subject:", "Meeting Notes", ", please summarize yesterday's call");
    ProcessOutcomes(sender, s, svc);
    assert svc.llm(ExtractionRequest(s)) == Reply(Generated);
    assert svc.llm(ContentRequest(Generated)) == Reply(Generated);
  }

  /** A prompt without an address fails extraction, and neither the model nor the webhook is called. */
  lemma PromptWithoutAddressFails(sender: Sender, s: string, svc: Services)
    requires s == "please email someone about the project"
    ensures ProcessUserPrompt(sender, s, svc) == Outcome(false, CouldNotExtract, [])
  {
    assert forall k :: 0 <= k < |s| ==> s[k] != '@';
    EmailPattern.RecipientNeedsAtSign(s);
    ProcessOutcomes(sender, s, svc);
  }

  /** With an address and a subject but an empty generation, extraction fails after the single model call. */
  lemma EmptyGenerationFailsExtraction(sender: Sender, s: string, svc: Services)
    requires s == "send a mail to " + "alice@example.com" + " " + "subject:" + "Meeting Notes" + ", please summarize yesterday's call"
    requires forall request :: svc.llm(request) == Reply("")
    ensures ProcessUserPrompt(sender, s, svc) == Outcome(false, CouldNotExtract, [Generate(ExtractionRequest(s))])
  {
    MeetingPromptDetails(s, "send a mail to ", "alice@example.com", " ", "subject:", "Meeting Notes", ", please summarize yesterday's call");
    ProcessOutcomes(sender, s, svc);
    assert svc.llm(ExtractionRequest(s)) == Reply("");
  }

  /** With everything extracted and generated but a 500 from the webhook, the send fails after the POST. */
  lemma ServerErrorFailsSend(sender: Sender, s: string, svc: Services)
    requires s == "send a mail to " + "alice@example.com" + " " + "subject:" + "Meeting Notes" + ", please summarize yesterday's call"
    requires forall request :: svc.llm(request) == Reply(Generated)
    requires forall post :: svc.webhook(post) == Status(500)
    ensures var r := ProcessUserPrompt(sender, s, svc);
      && r.success == false && r.message == FailedToSend
      && |r.calls| == 3 && r.calls[2].Post?
  {
    MeetingPromptDetails(s, "send a mail to ", "alice@example.com", " ", "subject:", "Meeting Notes", ", please summarize yesterday's call");
    ProcessOutcomes(sender, s, svc);
    assert svc.llm(ExtractionRequest(s)) == Reply(Generated);
    assert svc.llm(ContentRequest(Generated)) == Reply(Generated);
  }
}
