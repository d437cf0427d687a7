/**
 * The chat page of `src/app/chatClient.tsx`: the client-side check and rewrite of what
 * the user typed (`validateAndSanitizeInput`), the advisory request limit, and what
 * `handleSendMessage` does to the list of messages on screen.
 */
module ChatClient {
  import opened JsText
  import opened JsRegex

  // ---------------------------------------------------------------------------
  // validateAndSanitizeInput

  const MaxInputLength := 5000
  const InputEmpty := "Input cannot be empty."
  const InputTooLong := "Input exceeds maximum allowed length of 5000 characters."
  const BlockedCommand := "blocked-command:"
  const BlockedPrompt := "[blocked-prompt-injection]"

  /** The result object `{ isValid, sanitizedInput, errorMessage? }`. */
  datatype InputCheck = InputCheck(isValid: bool, sanitizedInput: string, errorMessage: Option<string>)

  /**
   * The three rewrites, in order: drop script blocks, defuse a leading command, defuse
   * prompt markers. Text that none of them can touch, with no `<`, no `[[` and no leading
   * `/`, comes through as it is.
   */
  function RewriteInput(trimmed: string): (r: string)
    ensures '<' !in trimmed && NoDoubleOpen(trimmed) && (trimmed == [] || trimmed[0] != '/') ==> r == trimmed
  {
    var noScripts := ReplaceAll(ScriptBlock, trimmed, "");
    ScriptFreeKept(trimmed);
    var noCommand := ReplaceFirst(SlashCommand, noScripts, BlockedCommand);
    SlashFreeKept(noScripts);
    MarkerFreeKept(noCommand);
    ReplaceAll(PromptMarker, noCommand, BlockedPrompt)
  }

  /** `validateAndSanitizeInput`: a blank or over-long input is refused, anything else rewritten. */
  function ValidateAndSanitizeInput(input: string): (r: InputCheck)
    ensures r.isValid <==> Trim(input) != "" && |Trim(input)| <= MaxInputLength
    ensures r.isValid <==> r.errorMessage.None?
    ensures !r.isValid ==> r.sanitizedInput == ""
    ensures Trim(input) == "" ==> r.errorMessage == Some(InputEmpty)
    ensures Trim(input) != "" && |Trim(input)| > MaxInputLength ==> r.errorMessage == Some(InputTooLong)
    ensures r.isValid ==> r.sanitizedInput == RewriteInput(Trim(input))
  {
    var trimmed := Trim(input);
    if trimmed == "" then InputCheck(false, "", Some(InputEmpty))
    else if |trimmed| > MaxInputLength then InputCheck(false, "", Some(InputTooLong))
    else InputCheck(true, RewriteInput(trimmed), None)
  }

  /** Without a closing tag anywhere, an opening `<script` is left as it is. */
  lemma UnterminatedScriptKept(s: string)
    requires forall k :: 0 <= k <= |s| ==> !ClosesAt(s, k)
    ensures ReplaceAll(ScriptBlock, s, "") == s
  {
    forall k | 0 <= k <= |s|
      ensures !MatchesAt(ScriptBlock, s, k)
    {
      if k + 7 <= |s| {
        assert FindCloseTag(s, k + 7).None?;
      }
    }
    ReplaceAllNoMatch(ScriptBlock, s, "");
  }

  /** `<script>`, a body without `<`, and `</script>` form one script block. */
  lemma ScriptBlockWhole(s: string, body: string)
    requires s == "<script>" + body + "</script>"
    requires forall k :: 0 <= k < |body| ==> body[k] != '<'
    ensures MatchAt(ScriptBlock, s, 0) == Some(|s|) && MatchAt(ScriptBlock, s, |s|).None?
  {
    ScriptOpens(s, body);
    ScriptCloses(s, body);
    assert MatchScriptBlock(s, 0) == Some(|s|);
    assert !StartsWithCI(s[|s|..], "<script");
  }

  lemma ScriptOpens(s: string, body: string)
    requires s == "<script>" + body + "</script>"
    ensures |s| == |body| + 17
    ensures StartsWithCI(s[0..], "<script") && !IsWordChar(s[7])
  {
    var open := "<script";
    assert s == open + s[7..];
    StartsWithCIOfPrefix(open, s[7..]);
    assert s[0..] == s;
  }

  lemma ScriptCloses(s: string, body: string)
    requires s == "<script>" + body + "</script>"
    requires forall k :: 0 <= k < |body| ==> body[k] != '<'
    ensures FindCloseTag(s, 7) == Some(8 + |body|)
  {
    var close := "</script>";
    var q := 8 + |body|;
    assert s[q..] == close + [];
    StartsWithCIOfPrefix(close, []);
    forall k | 7 <= k < q
      ensures s[k] != '<'
    {
      if k > 7 {
        assert s[k] == body[k - 8];
      }
    }
    FindCloseTagSkip(s, 7, q);
  }

  /** Neither the command rewrite nor the marker rewrite finds anything in the empty string. */
  lemma RewritesOfEmpty()
    ensures ReplaceFirst(SlashCommand, "", BlockedCommand) == ""
    ensures ReplaceAll(PromptMarker, "", BlockedPrompt) == ""
  {
    assert MatchAt(SlashCommand, "", 0).None?;
    ReplaceFirstNoMatch(SlashCommand, "", BlockedCommand);
    ReplaceAllNoMatch(PromptMarker, "", BlockedPrompt);
  }

  /** A message that is one script block is accepted, and what is sent is empty. */
  lemma ScriptOnlyInputAcceptedEmpty(s: string, body: string)
    requires s == "<script>" + body + "</script>"
    requires forall k :: 0 <= k < |body| ==> body[k] != '<'
    requires |s| <= MaxInputLength
    ensures ValidateAndSanitizeInput(s) == InputCheck(true, "", None)
  {
    assert s[0] == '<' && s[|s| - 1] == '>';
    TrimOfTrimmed(s);
    ScriptBlockWhole(s, body);
    WholeMatchReplaced(ScriptBlock, s, "");
    RewritesOfEmpty();
  }

  /** One of the three commands, then a whitespace character, starts `s`. */
  predicate StartsWithCommand(s: string, j: nat)
    requires j < |CommandAlternatives|
  {
    var a := CommandAlternatives[j];
    StartsWithCI(s, a) && |a| < |s| && IsJsSpace(s[|a|])
  }

  /** The second letters of `/system`, `/admin`, `/debug` differ, so at most one command starts a string. */
  lemma CommandsExclusive(s: string, j: nat, k: nat)
    requires j < |CommandAlternatives| && k < |CommandAlternatives| && j != k
    requires StartsWithCI(s, CommandAlternatives[j])
    ensures !StartsWithCI(s, CommandAlternatives[k])
  {
    var a, b := CommandAlternatives[j], CommandAlternatives[k];
    SecondLetter(s, a);
    SecondLetter(s, b);
    assert AsciiLower(a[1]) != AsciiLower(b[1]);
  }

  lemma SecondLetter(t: string, lit: string)
    requires |lit| > 1
    ensures StartsWithCI(t, lit) ==> |t| > 1 && AsciiLower(t[1]) == AsciiLower(lit[1])
  {
    if StartsWithCI(t, lit) {
    }
  }

  /** The command rewrite, when the input starts with command `j`: that prefix and its space become `blocked-command:`. */
  lemma CommandRewritten(s: string, j: nat)
    requires j < |CommandAlternatives| && StartsWithCommand(s, j)
    ensures ReplaceFirst(SlashCommand, s, BlockedCommand) == BlockedCommand + s[|CommandAlternatives[j]| + 1..]
  {
    var alts := CommandAlternatives;
    var n := |alts[j]|;
    forall k | 0 <= k < j
      ensures !StartsWithCI(s, alts[k])
    {
      CommandsExclusive(s, j, k);
    }
    FirstCommand(s, j);
    assert MatchSlashCommand(s, 0) == Some(n + 1);
    ReplaceFirstAtStart(SlashCommand, s, BlockedCommand, n + 1);
  }

  lemma FirstCommand(s: string, j: nat)
    requires j < |CommandAlternatives| && StartsWithCI(s, CommandAlternatives[j])
    requires forall k :: 0 <= k < j ==> !StartsWithCI(s, CommandAlternatives[k])
    ensures FirstAlternative(s, CommandAlternatives) == Some(|CommandAlternatives[j]|)
  {
    var alts := CommandAlternatives;
    if j == 0 {
    } else if j == 1 {
      assert !StartsWithCI(s, alts[0]);
      assert FirstAlternative(s, alts) == FirstAlternative(s, alts[1..]);
    } else {
      assert !StartsWithCI(s, alts[0]) && !StartsWithCI(s, alts[1]);
      assert FirstAlternative(s, alts) == FirstAlternative(s, alts[1..]);
      assert FirstAlternative(s, alts[1..]) == FirstAlternative(s, alts[2..]);
    }
  }

  /** The command rewrite, when no command and whitespace starts the input: nothing changes. */
  lemma CommandKept(s: string)
    requires forall j :: 0 <= j < |CommandAlternatives| ==> !StartsWithCommand(s, j)
    ensures ReplaceFirst(SlashCommand, s, BlockedCommand) == s
  {
    NoCommandAtStart(s);
    forall k | 0 <= k <= |s|
      ensures !MatchesAt(SlashCommand, s, k)
    {
      if k == 0 {
        assert MatchAt(SlashCommand, s, 0) == MatchSlashCommand(s, 0);
      }
    }
    ReplaceFirstNoMatch(SlashCommand, s, BlockedCommand);
  }

  lemma NoCommandAtStart(s: string)
    requires forall j :: 0 <= j < |CommandAlternatives| ==> !StartsWithCommand(s, j)
    ensures MatchSlashCommand(s, 0).None?
  {
    var alts := CommandAlternatives;
    match FirstAlternative(s, alts)
    case None =>
    case Some(n) =>
      var a :| a in alts && |a| == n && StartsWithCI(s, a);
      var j :| 0 <= j < |alts| && alts[j] == a;
      assert !StartsWithCommand(s, j);
  }

  /** Text without `[[` holds no prompt marker and is left as it is. */
  lemma MarkerFreeKept(s: string)
    ensures NoDoubleOpen(s) ==> ReplaceAll(PromptMarker, s, BlockedPrompt) == s
  {
    if NoDoubleOpen(s) {
      forall k | 0 <= k <= |s|
        ensures !MatchesAt(PromptMarker, s, k)
      {
      }
      ReplaceAllNoMatch(PromptMarker, s, BlockedPrompt);
    }
  }

  /** Text without `<` holds no script block and is left as it is. */
  lemma ScriptFreeKept(s: string)
    ensures '<' !in s ==> ReplaceAll(ScriptBlock, s, "") == s
  {
    if '<' !in s {
      forall k | 0 <= k <= |s|
        ensures !MatchesAt(ScriptBlock, s, k)
      {
        ScriptNeedsOpen(s, k);
      }
      ReplaceAllNoMatch(ScriptBlock, s, "");
    }
  }

  /** Text that does not start with `/` starts with no command and is left as it is. */
  lemma SlashFreeKept(s: string)
    ensures s == [] || s[0] != '/' ==> ReplaceFirst(SlashCommand, s, BlockedCommand) == s
  {
    if s == [] || s[0] != '/' {
      forall j | 0 <= j < |CommandAlternatives|
        ensures !StartsWithCommand(s, j)
      {
        assert CommandAlternatives[j][0] == '/';
      }
      CommandKept(s);
    }
  }

  /**
   * A prompt marker in an input without `<`, not starting with `/` and with no other `[[`:
   * the rewrite puts `[blocked-prompt-injection]` in its place and keeps the rest.
   */
  lemma MarkerDefused(pre: string, w1: string, word: string, w2: string, post: string)
    requires IsSpaceRun(w1) && IsSpaceRun(w2) && IsPromptWord(word)
    requires NoDoubleOpen(pre) && NoDoubleOpen(post)
    requires '<' !in pre && '<' !in post
    requires pre == [] || pre[0] != '/'
    ensures RewriteInput(pre + "[[" + w1 + word + w2 + "]]" + post) == pre + BlockedPrompt + post
  {
    var s := pre + "[[" + w1 + word + w2 + "]]" + post;
    assert '<' !in s by {
      forall m | 0 <= m < |s|
        ensures s[m] != '<'
      {
        if |pre| + 2 + |w1| <= m < |pre| + 8 + |w1| {
          assert AsciiLower(s[m]) == AsciiLower(word[m - |pre| - 2 - |w1|]);
        }
      }
    }
    ScriptFreeKept(s);
    assert s[0] == if pre == [] then '[' else pre[0];
    SlashFreeKept(s);
    MarkerReplaced(pre, w1, word, w2, post, BlockedPrompt);
  }

  /**
   * A `<script>` block in an input that has no other `<`, no `[[` and does not start
   * with `/`: the rewrite removes the block, body and tags, and keeps the text around it.
   */
  lemma ScriptDropped(pre: string, body: string, post: string)
    requires forall k :: 0 <= k <= |body| ==> !ClosesAt(body, k)
    requires '<' !in pre && '<' !in post
    requires NoDoubleOpen(pre + post)
    requires pre + post == [] || (pre + post)[0] != '/'
    ensures RewriteInput(pre + "<script>" + body + "</script>" + post) == pre + post
  {
    ScriptReplaced(pre, body, post, "");
    assert pre + "" + post == pre + post;
    SlashFreeKept(pre + post);
    MarkerFreeKept(pre + post);
  }

  // ---------------------------------------------------------------------------
  // The advisory request limit and the send controls

  /** Requests in the last 24 hours beyond which the page refuses to take another question. */
  const DailyLimit := 5

  /** `ipStats.recentRequests > 5`. */
  predicate LimitExceeded(recentRequests: int) {
    recentRequests > DailyLimit
  }

  /** The text area takes input: `disabled={isLoading || limitExceeded}`. */
  predicate InputEnabled(isLoading: bool, recentRequests: int) {
    !isLoading && !LimitExceeded(recentRequests)
  }

  /** The send button can be pressed: `disabled={isLoading || !input.trim() || limitExceeded}`. */
  predicate SendEnabled(isLoading: bool, input: string, recentRequests: int) {
    !isLoading && Trim(input) != "" && !LimitExceeded(recentRequests)
  }

  /**
   * Over the limit, neither the text area nor the button is usable, so no request can
   * start from the page; under it, a non-blank input can be sent whenever nothing is loading.
   */
  lemma LimitBlocksSending(isLoading: bool, input: string, recentRequests: int)
    ensures recentRequests > 5 ==> !InputEnabled(isLoading, recentRequests) && !SendEnabled(isLoading, input, recentRequests)
    ensures recentRequests <= 5 && !isLoading && Trim(input) != "" ==> SendEnabled(isLoading, input, recentRequests)
    ensures SendEnabled(isLoading, input, recentRequests) ==> InputEnabled(isLoading, recentRequests)
  {
  }

  // ---------------------------------------------------------------------------
  // handleSendMessage

  datatype Speaker = User | Assistant

  datatype Message = Message(role: Speaker, content: string)

  const InvalidInputFallback := "Invalid input. Please try again."
  const Apology := "Sorry, there was an error processing your request. Please try again later."

  /** The body of a response: the decoded chunks the reader delivers, and whether a read then fails. */
  datatype ResponseBody = ResponseBody(chunks: seq<string>, readFails: bool)

  /** What `fetch("/api/rag")` gives: a rejection, or a status and a body that may be absent. */
  datatype FetchOutcome =
    | NetworkError
    | Responded(status: nat, body: Option<ResponseBody>)

  /** `res.ok`. */
  predicate IsOk(status: nat) {
    200 <= status <= 299
  }

  /** `errorMessage || "Invalid input. Please try again."`. */
  function ErrorText(check: InputCheck): string {
    if check.errorMessage.Some? && check.errorMessage.value != "" then check.errorMessage.value
    else InvalidInputFallback
  }

  /** The request did not complete: the fetch rejected, the status was not 2xx, or a read failed. */
  predicate Failed(fetch: FetchOutcome) {
    || fetch.NetworkError?
    || !IsOk(fetch.status)
    || (fetch.body.Some? && fetch.body.value.readFails)
  }

  /**
   * The message list after one send, from the list before it: nothing for blank input, one
   * error message for refused input; otherwise the user's sanitised message, then the
   * streamed answer (if there is a body) and an apology (if the request failed).
   */
  function AfterSend(messages: seq<Message>, input: string, fetch: FetchOutcome): (after: seq<Message>)
    ensures |messages| <= |after| <= |messages| + 3 && after[..|messages|] == messages
    ensures Trim(input) == "" ==> after == messages
    ensures Trim(input) != "" ==> |after| > |messages|
  {
    if Trim(input) == "" then messages
    else
      var check := ValidateAndSanitizeInput(input);
      if !check.isValid then messages + [Message(Assistant, ErrorText(check))]
      else
        var sent := messages + [Message(User, check.sanitizedInput)];
        var answer :=
          if fetch.Responded? && IsOk(fetch.status) && fetch.body.Some?
          then [Message(Assistant, Concat(fetch.body.value.chunks))] else [];
        sent + answer + (if Failed(fetch) then [Message(Assistant, Apology)] else [])
  }

  /**
   * A refused input shows exactly one message, and it is the length error: a blank input
   * never reaches the check, so neither the empty-input text nor the fallback is shown.
   */
  lemma RefusedInputShowsLengthError(messages: seq<Message>, input: string, fetch: FetchOutcome)
    requires Trim(input) != "" && !ValidateAndSanitizeInput(input).isValid
    ensures AfterSend(messages, input, fetch) == messages + [Message(Assistant, InputTooLong)]
    ensures |Trim(input)| > MaxInputLength
  {
  }

  /**
   * An accepted input is shown as the user's sanitised message; a successful response with
   * a body adds one answer holding all chunks, in order; a failed request ends with an
   * apology, and only a failed request adds one.
   */
  lemma AcceptedInputMessages(messages: seq<Message>, input: string, fetch: FetchOutcome)
    requires ValidateAndSanitizeInput(input).isValid
    ensures var after := AfterSend(messages, input, fetch);
      var answered := fetch.Responded? && IsOk(fetch.status) && fetch.body.Some?;
      && |after| == |messages| + 1 + (if answered then 1 else 0) + (if Failed(fetch) then 1 else 0)
      && after[|messages|] == Message(User, ValidateAndSanitizeInput(input).sanitizedInput)
      && (answered ==> after[|messages| + 1] == Message(Assistant, Concat(fetch.body.value.chunks)))
      && (Failed(fetch) ==> after[|after| - 1] == Message(Assistant, Apology))
  {
  }

  /** The chat page's state: the messages on screen and the content of the text area. */
  class ChatSession {
    var messages: seq<Message>
    var input: string

    constructor()
      ensures messages == [] && input == ""
    {
      messages := [];
      input := "";
    }

    /** The text area's `onChange`. */
    method SetInput(text: string)
      modifies this
      ensures input == text && messages == old(messages)
    {
      input := text;
    }

    /**
     * `handleSendMessage`, with the server's answer given as `fetch`. Returns the query that
     * was posted, if any, and (ghost) the message list as shown once the empty answer is
     * added and then after each chunk arrived.
     */
    method HandleSendMessage(fetch: FetchOutcome) returns (posted: Option<string>, ghost shown: seq<seq<Message>>)
      modifies this
      ensures messages == AfterSend(old(messages), old(input), fetch)
      ensures var check := ValidateAndSanitizeInput(old(input));
        && (Trim(old(input)) == "" ==> input == old(input))
        && (Trim(old(input)) != "" ==> input == "")
        && posted == (if check.isValid then Some(check.sanitizedInput) else None)
      ensures var check := ValidateAndSanitizeInput(old(input));
        check.isValid && fetch.Responded? && IsOk(fetch.status) && fetch.body.Some? ==>
        var chunks := fetch.body.value.chunks;
        && |shown| == |chunks| + 1
        && forall j :: 0 <= j < |shown| ==>
             shown[j] == old(messages) + [Message(User, check.sanitizedInput), Message(Assistant, Concat(chunks[..j]))]
    {
      shown := [];
      posted := None;
      var before := messages;
      if Trim(input) == "" {
        return;
      }
      var check := ValidateAndSanitizeInput(input);
      if !check.isValid {
        messages := messages + [Message(Assistant, ErrorText(check))];
        input := "";
        return;
      }
      messages := messages + [Message(User, check.sanitizedInput)];
      input := "";
      posted := Some(check.sanitizedInput);
      var sent := messages;

      if fetch.NetworkError? || !IsOk(fetch.status) {
        // the rejection, or the error thrown for a status outside 2xx, lands in `catch`
        messages := messages + [Message(Assistant, Apology)];
      } else if fetch.body.Some? {
        // a 2xx response without a body ends the send with nothing more on screen
        shown := ReadBody(fetch.body.value);
        forall j | 0 <= j < |shown|
          ensures shown[j] == before + [Message(User, check.sanitizedInput), Message(Assistant, Concat(fetch.body.value.chunks[..j]))]
        {
          assert sent + [Message(Assistant, Concat(fetch.body.value.chunks[..j]))]
              == before + [Message(User, check.sanitizedInput), Message(Assistant, Concat(fetch.body.value.chunks[..j]))];
        }
      }
    }

    /**
     * The reading part of `handleSendMessage`: an empty answer is appended and, chunk by
     * chunk, replaced by the text received so far; a failing read lands in `catch`, which
     * appends the apology after it. `shown[j]` is the list on screen after `j` chunks, the
     * empty answer being `shown[0]`.
     */
    method ReadBody(body: ResponseBody) returns (ghost shown: seq<seq<Message>>)
      modifies this
      ensures messages == old(messages) + [Message(Assistant, Concat(body.chunks))]
                          + (if body.readFails then [Message(Assistant, Apology)] else [])
      ensures |shown| == |body.chunks| + 1
      ensures forall j :: 0 <= j < |shown| ==> shown[j] == old(messages) + [Message(Assistant, Concat(body.chunks[..j]))]
      ensures input == old(input)
    {
      var chunks := body.chunks;
      var base := messages;
      var result := "";
      messages := messages + [Message(Assistant, "")];
      shown := [messages];
      var i := 0;
      while i < |chunks|
        invariant 0 <= i <= |chunks|
        invariant result == Concat(chunks[..i])
        invariant messages == base + [Message(Assistant, result)]
        invariant |shown| == i + 1
        invariant forall j :: 0 <= j <= i ==> shown[j] == base + [Message(Assistant, Concat(chunks[..j]))]
        invariant input == old(input)
      {
        result := result + chunks[i];
        assert chunks[..i + 1][..i] == chunks[..i];
        messages := messages[|messages| - 1 := Message(Assistant, result)];
        shown := shown + [messages];
        i := i + 1;
      }
      assert chunks[..|chunks|] == chunks;
      if body.readFails {
        messages := messages + [Message(Assistant, Apology)];
      }
    }
  }
}
