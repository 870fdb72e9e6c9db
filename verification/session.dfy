/**
  The interactive loop of `main` in mail-agent.py: build the agent, then read
  lines until one that, stripped and lower-cased, is `x`; every other line,
  stripped, is handed to `process_user_prompt`.

  Console input is a sequence of `Turn`s; running out of turns is the end of
  input, which ends the loop as the outer handler of `main` does.
 */
module Session {
  import opened Text
  import opened Wrappers
  import opened MailAgent

  /** One line typed at the prompt, and how the outside world answers while it is processed. */
  datatype Turn = Turn(line: string, services: Services)

  /** `user_prompt.lower() == 'x'` for an already stripped line: only `x` and `X` lower-case to `x`. */
  predicate IsExit(userPrompt: string) {
    userPrompt == "x" || userPrompt == "X"
  }

  /** The line of a turn as `main` hands it on: stripped. */
  function UserPrompt(t: Turn): string {
    Strip(t.line)
  }

  /** The position of the first exit line at or after `i`, or the number of lines when there is none. */
  function FirstExit(turns: seq<Turn>, i: nat): (n: nat)
    requires i <= |turns|
    ensures i <= n <= |turns|
    ensures n < |turns| ==> IsExit(UserPrompt(turns[n]))
    decreases |turns| - i
  {
    if i == |turns| || IsExit(UserPrompt(turns[i])) then i else FirstExit(turns, i + 1)
  }

  /** No line before `FirstExit` is an exit line. */
  lemma {:induction false} NoExitBeforeFirstExit(turns: seq<Turn>, i: nat)
    requires i <= |turns|
    ensures forall k :: i <= k < FirstExit(turns, i) ==> !IsExit(UserPrompt(turns[k]))
    decreases |turns| - i
  {
    if i < |turns| && !IsExit(UserPrompt(turns[i])) {
      NoExitBeforeFirstExit(turns, i + 1);
    }
  }

  /** The agent's answer to one stripped line: `process_user_prompt`. */
  function Respond(sender: Sender): (string, Services) -> Outcome {
    (userPrompt: string, svc: Services) => ProcessUserPrompt(sender, userPrompt, svc)
  }

  /** The outcomes of a session from line `i` on, each line answered by `respond`. */
  function Transcript(respond: (string, Services) -> Outcome, turns: seq<Turn>, i: nat): seq<Outcome>
    requires i <= |turns|
    decreases |turns| - i
  {
    if i == |turns| || IsExit(UserPrompt(turns[i])) then []
    else [respond(UserPrompt(turns[i]), turns[i].services)] + Transcript(respond, turns, i + 1)
  }

  /** A session from line `i` answers one line for each line before the first exit line. */
  lemma {:induction false} TranscriptLength(respond: (string, Services) -> Outcome, turns: seq<Turn>, i: nat)
    requires i <= |turns|
    ensures |Transcript(respond, turns, i)| == FirstExit(turns, i) - i
    decreases |turns| - i
  {
    if i < |turns| && !IsExit(UserPrompt(turns[i])) {
      TranscriptLength(respond, turns, i + 1);
    }
  }

  /** The `k`-th outcome of a session from line `i` is the answer to line `i + k`, stripped. */
  lemma {:induction false} TranscriptEntry(respond: (string, Services) -> Outcome, turns: seq<Turn>, i: nat, k: nat)
    requires i <= |turns| && k < |Transcript(respond, turns, i)|
    ensures i + k < |turns|
    ensures Transcript(respond, turns, i)[k] == respond(UserPrompt(turns[i + k]), turns[i + k].services)
    decreases k
  {
    if k > 0 {
      TranscriptEntry(respond, turns, i + 1, k - 1);
    }
  }

  /**
    A session processes exactly the lines before the first exit line, each
    stripped and in order; the exit line and everything after it cause no
    extraction and no delivery.
   */
  lemma TranscriptStopsAtFirstExit(respond: (string, Services) -> Outcome, turns: seq<Turn>)
    ensures |Transcript(respond, turns, 0)| == FirstExit(turns, 0)
    ensures forall k :: 0 <= k < |Transcript(respond, turns, 0)| ==>
      Transcript(respond, turns, 0)[k] == respond(UserPrompt(turns[k]), turns[k].services)
    ensures forall k :: 0 <= k < FirstExit(turns, 0) ==> !IsExit(UserPrompt(turns[k]))
  {
    TranscriptLength(respond, turns, 0);
    NoExitBeforeFirstExit(turns, 0);
    TranscriptEntries(respond, turns);
  }

  /** Every outcome of a session is the answer to the line at its own position, stripped. */
  lemma TranscriptEntries(respond: (string, Services) -> Outcome, turns: seq<Turn>)
    ensures |Transcript(respond, turns, 0)| <= |turns|
    ensures forall k :: 0 <= k < |Transcript(respond, turns, 0)| ==>
      Transcript(respond, turns, 0)[k] == respond(UserPrompt(turns[k]), turns[k].services)
  {
    TranscriptLength(respond, turns, 0);
    forall k | 0 <= k < |Transcript(respond, turns, 0)|
      ensures Transcript(respond, turns, 0)[k] == respond(UserPrompt(turns[k]), turns[k].services)
    {
      TranscriptEntry(respond, turns, 0, k);
    }
  }

  /** Whatever follows an exit line is never processed: the session is the same without it. */
  lemma {:induction false} ExitIgnoresRest(respond: (string, Services) -> Outcome, turns: seq<Turn>, n: nat, i: nat)
    requires i <= n < |turns| && IsExit(UserPrompt(turns[n]))
    ensures Transcript(respond, turns, i) == Transcript(respond, turns[..n + 1], i)
    decreases n - i
  {
    assert turns[..n + 1][i] == turns[i];
    if i < n {
      ExitIgnoresRest(respond, turns, n, i + 1);
    }
  }

  /** A line that is not an exit line is answered, and the session goes on with the next. */
  lemma TranscriptStep(respond: (string, Services) -> Outcome, turns: seq<Turn>, i: nat)
    requires i < |turns| && !IsExit(UserPrompt(turns[i]))
    ensures Transcript(respond, turns, i) == [respond(UserPrompt(turns[i]), turns[i].services)] + Transcript(respond, turns, i + 1)
  {
  }

  /** The loop of `main` once the agent exists: read, strip, stop on `x`, process. */
  method RunSession(sender: Sender, turns: seq<Turn>) returns (outcomes: seq<Outcome>)
    ensures outcomes == Transcript(Respond(sender), turns, 0)
  {
    outcomes := [];
    var i := 0;
    while i < |turns|
      invariant 0 <= i <= |turns|
      invariant Transcript(Respond(sender), turns, 0) == outcomes + Transcript(Respond(sender), turns, i)
      decreases |turns| - i
    {
      var userPrompt := Strip(turns[i].line);
      if IsExit(userPrompt) {
        break;
      }
      var outcome := ProcessUserPrompt(sender, userPrompt, turns[i].services);
      TranscriptStep(Respond(sender), turns, i);
      assert Respond(sender)(userPrompt, turns[i].services) == outcome;
      outcomes := outcomes + [outcome];
      i := i + 1;
    }
  }

  /**
    `main`: a missing setting makes the agent's construction fail, which
    `main` only logs, so no line is read; otherwise the loop runs.
   */
  method RunAgent(webhookUrl: Option<string>, apiKey: Option<string>, googleApiKey: Option<string>, turns: seq<Turn>)
    returns (outcomes: seq<Outcome>)
    ensures NewSender(webhookUrl, apiKey, googleApiKey).Err? ==> outcomes == []
    ensures NewSender(webhookUrl, apiKey, googleApiKey).Ok? ==>
      outcomes == Transcript(Respond(NewSender(webhookUrl, apiKey, googleApiKey).value), turns, 0)
  {
    var sender := NewSender(webhookUrl, apiKey, googleApiKey);
    if sender.Err? {
      return [];
    }
    outcomes := RunSession(sender.value, turns);
  }
}
