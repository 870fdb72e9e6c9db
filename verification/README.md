# mail-agent: a Dafny model of the prompt-to-email agent

`mail-agent.py` is a small command-line agent. It reads one free-text
request per line and pulls out two things with regular expressions: a
recipient address and a subject. It then asks a language model (Gemini)
for the mail body and posts recipient, subject, body and template id to an
n8n webhook. Each line is answered with a status and a message. The loop
ends on a line reading `x`.

This project models the decision logic of that program and proves what it
promises:

- `Text`: the character classes of the two patterns, and Python's
  `str.strip()`.
- `EmailPattern`: `re.search(r'[\w\.-]+@[\w\.-]+\.\w+', prompt)`, written as
  the regex engine runs it. It tries each start in turn and runs the greedy
  loops with backtracking. It is proved equal to the leftmost, then longest,
  substring that the pattern matches.
- `SubjectPattern`: `re.search(r'subject:([^,]+)', prompt, re.IGNORECASE)`,
  then `.strip()` or the default `"No Subject"`. It is modelled and proved
  the same way.
- `MailAgent`: `N8nEmailSender.__init__`, `generate_llm_content`,
  `send_email`, `EmailAgent._parse_prompt` and `process_user_prompt`.
  - The language model and the webhook are oracles: a `Services` value maps
    each request to a reply.
  - `SendEmail`, `ParsePrompt` and `ProcessUserPrompt` also return the list
    of outside calls they made. Their contracts therefore state which
    requests were sent, with which payload, and when nothing was sent.
  - `GenerateLlmContent` always makes exactly one call,
    `ContentRequest(prompt)`, so it returns only the content. `SendEmail`
    records that call in its list. `NewSender` makes no outside call.
- `Session`: the `while True` loop of `main`, as an imperative method. It is
  proved against a specification function of the whole session. That
  function takes the answer to one line as a parameter (`respond`), so its
  lemmas hold for any per-line behaviour; `Session.Respond` instantiates it
  with `process_user_prompt`.
- `Scenarios`: whole-prompt runs on fixed prompts and fixed oracle answers.

Behaviour worth noting:

- The subject needs no trailing comma. `[^,]+` runs to the next comma or to
  the end of the prompt, so `... subject:Hi` gives the subject `Hi`.
  `SubjectPattern.SubjectAfterPlainMarker` proves this for a rest that is
  empty.
- The messages are exactly:
  - "Could not extract email details from the prompt"
  - "Failed to send email"
  - "Email sent successfully to <recipient>"
- The model is called twice.
  - `_parse_prompt` sends its own template around the whole prompt and keeps
    the answer as `content_prompt`.
  - `send_email` then passes that answer to `generate_llm_content`.
  - The posted content is therefore the model's answer about its own first
    answer.
  - A failed second generation is reported as "Failed to send email".
- The `except` branch of `process_user_prompt`, which returns `"Error: ..."`,
  is never reached. Every failure of the model or the webhook is caught
  lower down.
- An address in the prompt is the recipient when it is delimited
  (`EmailPattern.RecipientOfDelimitedAddress`):
  - the text before it contains no `@` and does not end in a `[\w.-]`
    character;
  - the text after it does not start with one.

  This is sufficient, not necessary. `foo@bar x@y.z` gives `x@y.z` although
  an `@` comes before it. An address followed by `.` or `-` can also be the
  whole recipient (`ExampleTrailingDot`, `ExampleHyphenAfterTopLevel`).
  Without delimitation the recipient can differ from the address. It can be
  longer, since `a@b.c` followed by `.d` gives `a@b.c.d` and followed by `d`
  gives `a@b.cd`. It can also come from elsewhere:
  - an earlier `[\w.-]` run with an `@` can match first
    (`EmailPattern.RecipientIsLeftmostLongest`);
  - the match extends to the left over every `[\w.-]` character before the
    `@` (`EmailPattern.LocalPartIsWholeRun`);
  - the domain's run extends to the right over every `[\w.-]` character,
    then backtracks to the last dot that a word character follows, and the
    final `\w+` takes the whole word run after that dot
    (`EmailPattern.DomainEndsAfterLastDot`).

## Model

| member | source | states |
|---|---|---|
| Text.Strip | mail-agent.py:192 | `str.strip()` with no argument, as applied to the subject capture and, at mail-agent.py:238, to each input line; `StripIsTrimmedInfix` and `TrimmedInfixIsStrip` characterise it |
| Text.SkipSpace | mail-agent.py:192 | the position where leading whitespace from `i` ends: within the text, and either at its end or at a character that is not whitespace |
| Text.SkipSpaceBack | mail-agent.py:192 | the position where trailing whitespace before `j` begins, not before `a`: either `a` or just after a character that is not whitespace |
| Text.SkippedAreSpace | mail-agent.py:192 | everything that leading-whitespace removal passes over is whitespace |
| Text.SkippedBackAreSpace | mail-agent.py:192 | everything that trailing-whitespace removal passes over is whitespace |
| Text.SkipSpaceStopsAt | mail-agent.py:192 | leading-whitespace removal stops at the first character that is not whitespace, and nowhere else |
| Text.SkipSpaceBackStopsAt | mail-agent.py:192 | trailing-whitespace removal stops just after the last character that is not whitespace, and nowhere else |
| Text.StripIsTrimmedInfix | mail-agent.py:192 | `strip()` leaves an infix of its argument: a whitespace prefix and a whitespace suffix are removed, and the result neither starts nor ends with whitespace |
| Text.TrimmedInfixIsStrip | mail-agent.py:192 | any such trimmed infix is the result of `strip()`, so these conditions define it |
| Text.StripHasNoOuterSpace | mail-agent.py:192 | the result of `strip()` neither starts nor ends with whitespace |
| Text.StripEmptyIffAllSpace | mail-agent.py:192 | `strip()` gives the empty string exactly for whitespace-only input |
| Text.StripIdempotent | mail-agent.py:192 | a general property of `str.strip()`: stripping a stripped string changes nothing |
| EmailPattern.IsEmailSpan | mail-agent.py:181 | the declarative reading of the pattern: `s[i..m]` is a non-empty `[\w.-]` run, `@`, a non-empty `[\w.-]` run, `.`, and a non-empty `\w` run |
| EmailPattern.FindRecipient | mail-agent.py:184-191 | `email_match.group(0)`, or nothing when the search fails; `RecipientIsLeftmostLongest` and `RecipientShape` characterise it |
| EmailPattern.AddrRunEnd | mail-agent.py:181 | where a greedy `[\w\.-]+` stops: all characters before it are in the class, the next one is not |
| EmailPattern.WordRunEnd | mail-agent.py:181 | where the greedy final `\w+` stops |
| EmailPattern.LastDot | mail-agent.py:181 | the backtracking of the domain run finds the last dot, after at least one domain character, that a word character follows; there is none exactly when no such dot exists |
| EmailPattern.MatchEnd | mail-agent.py:181 | the engine's attempt at one start position ends inside the prompt, after the start |
| EmailPattern.SearchFrom | mail-agent.py:184 | `re.search` from a position returns a span whose attempt succeeds |
| EmailPattern.MatchEndCorrect | mail-agent.py:181 | an attempt succeeds exactly when some substring from that start matches the pattern, and it returns the longest such |
| EmailPattern.SearchStep | mail-agent.py:184 | one start of `re.search`: a failed attempt moves on to the next start, a successful one is the result |
| EmailPattern.SearchSkipsFailedAttempts | mail-agent.py:184 | starts whose attempts fail are passed over: the search from before them equals the search from after them |
| EmailPattern.SearchFromCorrect | mail-agent.py:184 | the search returns the leftmost start at or after the given position where a match exists, and the longest match there; it returns nothing only when no match exists |
| EmailPattern.RecipientIsLeftmostLongest | mail-agent.py:184-191 | `email_match.group(0)` is the leftmost, then longest, match of the pattern; there is no recipient exactly when nothing in the prompt matches |
| EmailPattern.SpanIsAddress | mail-agent.py:191 | an extracted substring matches the pattern as a whole |
| EmailPattern.RecipientShape | mail-agent.py:181-191 | the recipient holds exactly one `@`, has a `.` after it and ends in a word character; every other character is in `[\w.-]` |
| EmailPattern.LocalPartIsWholeRun | mail-agent.py:181 | the local part is the whole `[\w.-]` run that ends just before the `@`: the character before the recipient is not in the class |
| EmailPattern.DomainEndsAfterLastDot | mail-agent.py:181 | the recipient's `@` is where the local part's run ends, and the recipient ends after the word run that follows the last dot of the domain run that has a domain character before it and a word character after it |
| EmailPattern.AttemptDomain | mail-agent.py:181 | the same for any successful attempt, wherever it starts |
| EmailPattern.RecipientNeedsAtSign | mail-agent.py:184-189 | a prompt without `@` yields no recipient |
| EmailPattern.RecipientOfDelimitedAddress | mail-agent.py:184-191 | a whole-pattern address, with no `@` before it and no `[\w.-]` character on either side, is exactly the recipient |
| EmailPattern.RecipientIsDelimitedSpan | mail-agent.py:184-191 | the same, for a match given by its position in the prompt |
| EmailPattern.NoSpanBefore | mail-agent.py:184 | no match starts before a position that no `@` precedes and that follows a character outside `[\w.-]` |
| EmailPattern.SpanEndsAtDelimiter | mail-agent.py:181 | a match that a character outside `[\w.-]` follows is the longest from its start |
| EmailPattern.EmbeddedAddress | mail-agent.py:181 | an address that the pattern matches as a whole is still matched, at its own position, inside any surrounding text |
| EmailPattern.ExampleHyphenAfterTopLevel | mail-agent.py:181 | `a@b.c-d` yields `a@b.c` |
| EmailPattern.ExampleTrailingDot | mail-agent.py:181 | `alice@example.com.` yields `alice@example.com` |
| EmailPattern.ExampleDotlessCandidateSkipped | mail-agent.py:184 | in `foo@bar x@y.z` the dotless candidate is skipped and `x@y.z` is the recipient |
| SubjectPattern.KeywordCharMatches | mail-agent.py:185 | `re.IGNORECASE` on one keyword character: the character itself, its ASCII upper case, and for `s` also the long s U+017F |
| SubjectPattern.IsSubjectSpan | mail-agent.py:182 | the declarative reading of the pattern: the keyword in any case, then one or more characters other than a comma |
| SubjectPattern.CapturedSubject | mail-agent.py:185-192 | `subject_match.group(1)`, or nothing when the search fails; `CaptureIsLeftmostLongest` and `CaptureHasNoComma` characterise it |
| SubjectPattern.ExtractSubject | mail-agent.py:192 | the stripped capture, or `"No Subject"` without a match; `SubjectDefaultsOnlyWithoutMatch` and `SubjectIsStripped` characterise it |
| SubjectPattern.CommaOrEnd | mail-agent.py:182 | the greedy `[^,]+` stops at the next comma or at the end, with no comma before |
| SubjectPattern.SubjectSearchFrom | mail-agent.py:185 | a match found from a position is a case-insensitive `subject:` followed by non-comma characters, and it ends at a comma or at the end |
| SubjectPattern.SubjectSearchCorrect | mail-agent.py:185 | the search returns the leftmost start, at or after the given position, where the pattern matches, and the longest match there; it returns nothing only when no match exists |
| SubjectPattern.CaptureIsLeftmostLongest | mail-agent.py:182-192 | `subject_match.group(1)` comes from the leftmost occurrence of the keyword, in any case, that a non-comma character follows; it runs to the next comma or to the end; there is none exactly when no occurrence matches |
| SubjectPattern.CaptureHasNoComma | mail-agent.py:182 | a capture is non-empty and holds no comma |
| SubjectPattern.SubjectDefaultsOnlyWithoutMatch | mail-agent.py:192 | the subject is `"No Subject"` when nothing matches, and otherwise the stripped capture |
| SubjectPattern.BlankCaptureGivesEmptySubject | mail-agent.py:192 | a whitespace-only capture gives the empty subject, and only such a capture does |
| SubjectPattern.SubjectIsStripped | mail-agent.py:192 | the subject neither starts nor ends with whitespace |
| SubjectPattern.KeywordEndsWithColon | mail-agent.py:182 | a keyword match ends with `:` (case folding does not touch the colon) |
| SubjectPattern.SubjectAfterPlainMarker | mail-agent.py:182-192 | after text without a colon, `subject:` followed by comma-free text and then a comma, or nothing, captures exactly that text |
| SubjectPattern.CaptureIsDelimitedSpan | mail-agent.py:182-192 | the same, for a match given by its position in the prompt |
| SubjectPattern.SearchSkipsNonMatches | mail-agent.py:185 | starts where the keyword is not followed by a non-comma character are passed over by the search |
| SubjectPattern.ExampleCommaAfterKeywordSkipped | mail-agent.py:185-192 | a `subject:` directly followed by a comma is passed over: `subject:, SUBJECT: Hi ` gives `Hi` |
| MailAgent.NewSender | mail-agent.py:18-27 | the sender is built exactly when all three settings are present and non-empty; the webhook settings are checked first, and each failure carries its own message |
| MailAgent.GenerateLlmContent | mail-agent.py:33-67 | content exists exactly when the model's reply to the content template is a non-empty text, and then it is that text |
| MailAgent.SendEmail | mail-agent.py:69-124 | success exactly when the content generation is usable and the webhook answers 200; the POST, to the configured URL with the key header and the four-key payload, happens only after a usable generation |
| MailAgent.ParsePrompt | mail-agent.py:169-224 | no recipient: no model call and no result; otherwise one model call on the whole prompt, and a result exactly when its reply is a non-empty text, holding recipient, subject, that text and no template id |
| MailAgent.ProcessUserPrompt | mail-agent.py:136-167 | success only with a recipient, and then the message is "Email sent successfully to " and the recipient; every failure message is one of the two fixed ones; at most three outside calls, the POST coming last |
| MailAgent.ProcessOutcomes | mail-agent.py:136-224 | the complete case analysis of one prompt: each outcome, message and list of calls, given the recipient search and the three oracle answers |
| MailAgent.SuccessIff | mail-agent.py:148-163 | success exactly when a recipient is found, both generations are usable and the webhook answers 200 |
| MailAgent.PostedContentIsSecondGeneration | mail-agent.py:153-158 | any POST carries the recipient, the subject, no template id and, as content, the model's answer about the text of its first answer |
| MailAgent.SecondGenerationFailureIsSendFailure | mail-agent.py:86-90 | an unusable second generation gives "Failed to send email" with no POST |
| MailAgent.NoErrorMessage | mail-agent.py:165-167 | no message starts with "Error: ": the `except` branch of `process_user_prompt` is never reached |
| Session.IsExit | mail-agent.py:240 | `user_prompt.lower() == 'x'` for a stripped line: the line is `x` or `X` |
| Session.Transcript | mail-agent.py:237-246 | the specification of the loop: the answers to the stripped lines from `i` on, up to the first exit line or the end of input; `TranscriptStopsAtFirstExit` and `ExitIgnoresRest` characterise it |
| Session.FirstExit | mail-agent.py:237-242 | the position of the first line, at or after `i`, that strips to `x` or `X`; the number of lines when there is none |
| Session.NoExitBeforeFirstExit | mail-agent.py:237-242 | no line before that position strips to `x` or `X` |
| Session.TranscriptLength | mail-agent.py:237-246 | a session answers exactly as many lines as come before the first exit line |
| Session.TranscriptEntry | mail-agent.py:237-246 | the `k`-th outcome from line `i` is the answer to line `i + k`, stripped |
| Session.TranscriptEntries | mail-agent.py:237-246 | every outcome of a session is the answer to the stripped line at its own position |
| Session.TranscriptStopsAtFirstExit | mail-agent.py:237-246 | a session processes exactly the lines before the first exit line, each stripped, in order |
| Session.ExitIgnoresRest | mail-agent.py:240-242 | whatever follows an exit line changes nothing: the session is the same with the rest cut off |
| Session.TranscriptStep | mail-agent.py:238-246 | a line that is not an exit line is answered, and the session goes on with the next line |
| Session.RunSession | mail-agent.py:237-246 | the loop's outcomes are the session's transcript with `process_user_prompt` answering each line |
| Session.RunAgent | mail-agent.py:226-249 | a missing setting means no line is processed; otherwise the outcomes are the transcript of the session |
| Scenarios.MeetingPromptDetails | mail-agent.py:181-192 | `send a mail to alice@example.com subject:Meeting Notes, please summarize yesterday's call` gives recipient `alice@example.com` and subject `Meeting Notes` |
| Scenarios.MeetingRecipient | mail-agent.py:181-191 | the recipient of the meeting prompt is `alice@example.com` |
| Scenarios.MeetingSubject | mail-agent.py:182-192 | the subject of the meeting prompt is `Meeting Notes` |
| Scenarios.MeetingPromptIsSent | mail-agent.py:136-163 | with text from the model and 200 from the webhook, that prompt is reported sent to `alice@example.com` after three calls |
| Scenarios.PromptWithoutAddressFails | mail-agent.py:187-189 | `please email someone about the project` fails extraction with no outside call at all |
| Scenarios.EmptyGenerationFailsExtraction | mail-agent.py:206-209 | with an empty generation, the meeting prompt fails extraction after one model call |
| Scenarios.ServerErrorFailsSend | mail-agent.py:113-120 | with a 500 from the webhook, the meeting prompt gives "Failed to send email" after the POST |

## Left out

- Unicode: `\w` is modelled as ASCII letters, digits and `_`. Python's `re` also takes Unicode letters and digits. For the letters of the keyword `subject:`, Python's `re.IGNORECASE` matches exactly the ASCII pair, plus the long s (U+017F) for `s`. The keyword match is therefore modelled exactly. `str.strip()` whitespace is the exact code-point list of `str.isspace`.
- The Gemini client, `genai.configure` and `generate_content` are not modelled. They are foreign network calls, so the model treats them as an oracle. The oracle answers each request with a reply, no response, or a raised error. It is fixed for one prompt, so two identical requests get the same answer.
- `requests.post` and HTTP are not modelled. They are network I/O, and the model treats them as an oracle returning a status code or a transport error. The `Content-Type` header and the JSON encoding of the body are not modelled.
- The instruction templates around the prompts (mail-agent.py:45-54, 195-204) are not modelled. They are opaque text sent to the model; the two templates appear only as the two request kinds `ExtractionRequest` and `ContentRequest`.
- Environment and `.env` loading are not modelled. The three settings are parameters of `NewSender`. `genai.GenerativeModel` is not modelled either.
- Logging, `json.dumps` of the details, and the diagnostics logged on a failed POST are not modelled. They have no effect on results.
- The console I/O of `main` is modelled only in part. Lines are given as a list, and the end of input ends the session, as the outer handler of `main` does. The welcome text and the printed `Status:`/`Message:` lines are not modelled; the model returns the outcomes instead.
- `MailAgent.NoErrorMessage`: exceptions that no code path raises on purpose, such as running out of memory, are outside the model. These are the only way to reach the `"Error: "` branch.
- `Session.RunAgent`: a `KeyboardInterrupt` is not modelled. It is not caught by `except Exception` and ends the program.
