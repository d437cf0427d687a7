/**
 * The pure part of the retrieval-augmented generation pipeline of `src/lib/rag.ts`:
 * input and context sanitisation, the post-filter on vector-index matches, and the
 * two-message chat requests.
 */
module Rag {
  import opened JsText
  import PromptText

  // ---------------------------------------------------------------------------
  // sanitizeInput

  /** A code unit in U+0000..U+001F or U+007F..U+009F, the class the sanitiser deletes. */
  predicate IsControl(c: char) {
    c <= '\U{1F}' || ('\U{7F}' <= c <= '\U{9F}')
  }

  /** `s.replace(/[\u0000-\u001F\u007F-\u009F]/g, '')`. */
  function StripControl(s: string): (r: string)
    ensures |r| <= |s|
    ensures forall k :: 0 <= k < |r| ==> !IsControl(r[k])
    ensures |s| == 1 ==> r == if IsControl(s[0]) then "" else s
  {
    if |s| == 0 then ""
    else
      var rest := StripControl(s[1..]);
      if IsControl(s[0]) then rest else [s[0]] + rest
  }

  /** The characters of the result are exactly the input's characters that are not control characters. */
  lemma {:induction false} StripControlChars(s: string)
    ensures forall c :: c in StripControl(s) <==> c in s && !IsControl(c)
    decreases |s|
  {
    if |s| > 0 {
      StripControlChars(s[1..]);
      assert s == [s[0]] + s[1..];
    }
  }

  /**
   * Removal distributes over concatenation: with the one-character case above, this fixes
   * the kept characters, their number and their order.
   */
  lemma {:induction false} StripControlAppend(a: string, b: string)
    ensures StripControl(a + b) == StripControl(a) + StripControl(b)
    decreases |a|
  {
    if |a| > 0 {
      StripControlAppend(a[1..], b);
      assert (a + b)[1..] == a[1..] + b;
    } else {
      assert a + b == b;
    }
  }

  /** Removing control characters from a string that has none changes nothing. */
  lemma {:induction false} StripControlClean(s: string)
    requires forall k :: 0 <= k < |s| ==> !IsControl(s[k])
    ensures StripControl(s) == s
  {
    if |s| > 0 {
      StripControlClean(s[1..]);
    }
  }

  const MaxInputLength := 2000
  const Ellipsis := "..."

  /** `sanitizeInput`: drop control characters, trim, cut to 2000 code units plus "...". */
  function SanitizeInput(input: string): (r: string)
    ensures |r| <= MaxInputLength + |Ellipsis|
    ensures forall k :: 0 <= k < |r| ==> !IsControl(r[k])
    ensures r == [] || (!IsJsSpace(r[0]) && !IsJsSpace(r[|r| - 1]))
  {
    var sanitized := Trim(StripControl(input));
    if |sanitized| > MaxInputLength then sanitized[..MaxInputLength] + Ellipsis else sanitized
  }

  /**
   * What `sanitizeInput` promises: a cleaned string of at most 2000 code units comes
   * back as it is; a longer one keeps its first 2000 code units and gains "...".
   */
  lemma SanitizeInputShape(input: string)
    ensures var t := Trim(StripControl(input));
      && (|t| <= MaxInputLength ==> SanitizeInput(input) == t)
      && (|t| > MaxInputLength ==>
            |SanitizeInput(input)| == MaxInputLength + 3
            && SanitizeInput(input)[..MaxInputLength] == t[..MaxInputLength]
            && SanitizeInput(input)[MaxInputLength..] == Ellipsis)
  {
  }

  /** A string without control characters or surrounding whitespace, of at most 2000 code units, is left alone. */
  lemma SanitizeInputFixpoint(s: string)
    requires forall k :: 0 <= k < |s| ==> !IsControl(s[k])
    requires s == [] || (!IsJsSpace(s[0]) && !IsJsSpace(s[|s| - 1]))
    requires |s| <= MaxInputLength
    ensures SanitizeInput(s) == s
  {
    StripControlClean(s);
    TrimOfTrimmed(s);
  }

  /** Sanitising twice is sanitising once: the second pass in `generateResponseStream` changes nothing. */
  lemma SanitizeInputIdempotent(input: string)
    ensures SanitizeInput(SanitizeInput(input)) == SanitizeInput(input)
  {
    var t := Trim(StripControl(input));
    var r := SanitizeInput(input);
    StripControlClean(r);
    TrimOfTrimmed(r);
    if |t| > MaxInputLength {
      assert |r| == MaxInputLength + 3;
      assert r[..MaxInputLength] == t[..MaxInputLength];
    }
  }

  // ---------------------------------------------------------------------------
  // validateContext

  /**
   * A passage that survives the filter `item && item.trim() !== ''`: one with a code unit
   * that is not whitespace (see `IsNonBlankTrim`).
   */
  predicate IsNonBlank(item: string) {
    exists k :: 0 <= k < |item| && !IsJsSpace(item[k])
  }

  /** The filter's test, `item.trim() !== ''`, is `IsNonBlank`. */
  lemma IsNonBlankTrim(item: string)
    ensures IsNonBlank(item) <==> Trim(item) != ""
  {
  }

  /** The passages whose trim is non-empty, in their original order. */
  function NonBlank(items: seq<string>): (r: seq<string>)
    ensures |r| <= |items|
    ensures forall k :: 0 <= k < |r| ==> IsNonBlank(r[k]) && r[k] in items
  {
    if |items| == 0 then []
    else
      var rest := NonBlank(items[1..]);
      assert forall k :: 0 <= k < |rest| ==> rest[k] in items;
      if IsNonBlank(items[0]) then [items[0]] + rest else rest
  }

  /** The filter distributes over concatenation, so it keeps the passages' relative order. */
  lemma {:induction false} NonBlankAppend(a: seq<string>, b: seq<string>)
    ensures NonBlank(a + b) == NonBlank(a) + NonBlank(b)
  {
    if |a| > 0 {
      assert (a + b)[1..] == a[1..] + b;
      NonBlankAppend(a[1..], b);
    } else {
      assert a + b == b;
    }
  }

  /** Every non-blank passage is kept. */
  lemma {:induction false} NonBlankKeeps(items: seq<string>, x: string)
    requires x in items && IsNonBlank(x)
    ensures x in NonBlank(items)
  {
    if items[0] != x {
      NonBlankKeeps(items[1..], x);
    }
  }

  const MaxContexts := 50

  /** `validateContext`: keep non-blank passages, sanitise each, keep the first 50. */
  function ValidateContext(context: seq<string>): (r: seq<string>)
    ensures |r| <= MaxContexts && |r| <= |context|
    ensures |r| == if |NonBlank(context)| < MaxContexts then |NonBlank(context)| else MaxContexts
    ensures forall i :: 0 <= i < |r| ==> r[i] == SanitizeInput(NonBlank(context)[i])
  {
    var kept := NonBlank(context);
    var sanitized := seq(|kept|, i requires 0 <= i < |kept| => SanitizeInput(kept[i]));
    if |sanitized| > MaxContexts then sanitized[..MaxContexts] else sanitized
  }

  /** The filter runs before sanitising: a passage of control characters only is kept and becomes "". */
  lemma ControlOnlyPassageBecomesEmpty()
    ensures ValidateContext(["\U{1}"]) == [""]
  {
    var p := "\U{1}";
    assert p[0] == '\U{1}' && !IsJsSpace(p[0]);
    assert IsNonBlank(p);
    assert NonBlank(["\U{1}"]) == ["\U{1}"];
    assert StripControl("\U{1}") == "";
  }

  // ---------------------------------------------------------------------------
  // searchPinecone post-filter

  /** A vector-index match; only the `text` entry of its metadata matters here. */
  datatype IndexMatch = IndexMatch(id: string, metadata: Option<map<string, string>>)

  /** `match.metadata?.text`. */
  function MatchText(m: IndexMatch): Option<string> {
    if m.metadata.Some? && "text" in m.metadata.value then Some(m.metadata.value["text"]) else None
  }

  /** `matches.map(m => m.metadata?.text).filter(Boolean)`: the non-empty texts, in match order. */
  function RetrievedTexts(matches: seq<IndexMatch>): (r: seq<string>)
    ensures |r| <= |matches|
    ensures forall k :: 0 <= k < |r| ==> r[k] != ""
  {
    if |matches| == 0 then []
    else
      var t := MatchText(matches[0]);
      (if t.Some? && t.value != "" then [t.value] else []) + RetrievedTexts(matches[1..])
  }

  /** The post-filter distributes over concatenation of match lists: the order of matches is kept. */
  lemma {:induction false} RetrievedTextsAppend(a: seq<IndexMatch>, b: seq<IndexMatch>)
    ensures RetrievedTexts(a + b) == RetrievedTexts(a) + RetrievedTexts(b)
  {
    if |a| > 0 {
      assert (a + b)[1..] == a[1..] + b;
      RetrievedTextsAppend(a[1..], b);
    } else {
      assert a + b == b;
    }
  }

  /** A text is retrieved exactly when some match carries it as a non-empty `text`. */
  lemma {:induction false} RetrievedTextsMembers(matches: seq<IndexMatch>, x: string)
    ensures x in RetrievedTexts(matches) <==> x != "" && exists m :: m in matches && MatchText(m) == Some(x)
  {
    if |matches| > 0 {
      RetrievedTextsMembers(matches[1..], x);
      if x != "" && MatchText(matches[0]) != Some(x) {
        assert (exists m :: m in matches && MatchText(m) == Some(x))
          <==> (exists m :: m in matches[1..] && MatchText(m) == Some(x)) by {
          forall m | m in matches && MatchText(m) == Some(x) ensures m in matches[1..] {
            var k :| 0 <= k < |matches| && matches[k] == m;
            assert k != 0;
            assert matches[1..][k - 1] == m;
          }
        }
      }
    }
  }

  // ---------------------------------------------------------------------------
  // Prompt construction (generateResponse, generateResponseStream)

  const PassageSeparator := "\n\n"

  datatype Role = System | User

  datatype ChatMessage = ChatMessage(role: Role, content: string)

  /** The context block: the validated passages separated by blank lines. */
  function ContextBlock(context: seq<string>): string {
    Join(ValidateContext(context), PassageSeparator)
  }

  /**
   * The only control character the context block can carry is the newline of the
   * separator: every passage in it has been through `sanitizeInput`.
   */
  lemma ContextBlockControls(context: seq<string>, c: char)
    requires c in ContextBlock(context) && IsControl(c)
    ensures c == '\n'
  {
    var passages := ValidateContext(context);
    forall k | 0 <= k < |passages|
      ensures c !in passages[k]
    {
      assert forall j :: 0 <= j < |passages[k]| ==> passages[k][j] != c;
    }
    JoinChars(passages, PassageSeparator, c);
  }

  /** The system prompt of `generateResponseStream`: persona, context, markdown note, safety guidelines. */
  function StreamSystemPrompt(context: seq<string>): string {
    PromptText.PersonaPrefix + ContextBlock(context) + PromptText.MarkdownNote + PromptText.SafetyGuidelines
  }

  /** The system prompt of `generateResponse`: the same without the markdown note. */
  function SystemPrompt(context: seq<string>): string {
    PromptText.PersonaPrefix + ContextBlock(context) + PromptText.SafetyGuidelines
  }

  /** The `messages` of the chat-completion request built by `generateResponseStream`. */
  function StreamRequestMessages(query: string, context: seq<string>): (msgs: seq<ChatMessage>)
    ensures |msgs| == 2 && msgs[0].role == System && msgs[1].role == User
    ensures msgs[0].content == StreamSystemPrompt(context)
    ensures msgs[1].content == SanitizeInput(query)
    ensures |msgs[1].content| <= MaxInputLength + |Ellipsis|
    ensures forall k :: 0 <= k < |msgs[1].content| ==> !IsControl(msgs[1].content[k])
    ensures msgs[1].content == [] || (!IsJsSpace(msgs[1].content[0]) && !IsJsSpace(msgs[1].content[|msgs[1].content| - 1]))
  {
    [ChatMessage(System, StreamSystemPrompt(context)), ChatMessage(User, SanitizeInput(query))]
  }

  /** The `messages` of the non-streaming request built by `generateResponse`. */
  function RequestMessages(query: string, context: seq<string>): (msgs: seq<ChatMessage>)
    ensures |msgs| == 2 && msgs[0].role == System && msgs[1].role == User
    ensures msgs[0].content == SystemPrompt(context)
    ensures msgs[1].content == SanitizeInput(query)
    ensures |msgs[1].content| <= MaxInputLength + |Ellipsis|
    ensures forall k :: 0 <= k < |msgs[1].content| ==> !IsControl(msgs[1].content[k])
    ensures msgs[1].content == [] || (!IsJsSpace(msgs[1].content[0]) && !IsJsSpace(msgs[1].content[|msgs[1].content| - 1]))
  {
    [ChatMessage(System, SystemPrompt(context)), ChatMessage(User, SanitizeInput(query))]
  }

  /**
   * The streaming system prompt opens with the persona, carries the context block right
   * after it and closes with the safety guidelines.
   */
  lemma StreamSystemPromptShape(context: seq<string>)
    ensures PromptText.PersonaPrefix <= StreamSystemPrompt(context)
    ensures EndsWith(StreamSystemPrompt(context), PromptText.SafetyGuidelines)
    ensures var n := |PromptText.PersonaPrefix|;
      StreamSystemPrompt(context)[n..n + |ContextBlock(context)|] == ContextBlock(context)
  {
    PromptShape(PromptText.PersonaPrefix, ContextBlock(context), PromptText.MarkdownNote, PromptText.SafetyGuidelines);
  }

  /** The same shape for the non-streaming system prompt. */
  lemma SystemPromptShape(context: seq<string>)
    ensures PromptText.PersonaPrefix <= SystemPrompt(context)
    ensures EndsWith(SystemPrompt(context), PromptText.SafetyGuidelines)
    ensures var n := |PromptText.PersonaPrefix|;
      SystemPrompt(context)[n..n + |ContextBlock(context)|] == ContextBlock(context)
  {
    PromptShape(PromptText.PersonaPrefix, ContextBlock(context), "", PromptText.SafetyGuidelines);
    assert PromptText.PersonaPrefix + ContextBlock(context) + "" == PromptText.PersonaPrefix + ContextBlock(context);
  }

  lemma PromptShape(persona: string, block: string, note: string, guidelines: string)
    ensures var s := persona + block + note + guidelines;
      persona <= s && EndsWith(s, guidelines) && s[|persona|..|persona| + |block|] == block
  {
    ConcatEnds(persona, block + note, guidelines);
    assert persona + (block + note) + guidelines == persona + block + note + guidelines;
    assert (block + note)[..|block|] == block;
  }

  /** The two prompts differ only by the markdown note placed before the guidelines. */
  lemma StreamPromptAddsMarkdownNote(context: seq<string>)
    ensures var plain := SystemPrompt(context);
      StreamSystemPrompt(context)
        == plain[..|plain| - |PromptText.SafetyGuidelines|] + PromptText.MarkdownNote + PromptText.SafetyGuidelines
  {
    DropLast(PromptText.PersonaPrefix + ContextBlock(context), PromptText.SafetyGuidelines);
  }

  lemma DropLast(a: string, s: string)
    ensures (a + s)[..|a + s| - |s|] == a
  {
  }

  /** With nothing retrieved the request is still two messages, with an empty context block. */
  lemma EmptyRetrievalPrompt(query: string)
    ensures StreamRequestMessages(query, [])
         == [ChatMessage(System, PromptText.PersonaPrefix + PromptText.MarkdownNote + PromptText.SafetyGuidelines), ChatMessage(User, SanitizeInput(query))]
  {
    assert ValidateContext([]) == [];
    assert PromptText.PersonaPrefix + "" == PromptText.PersonaPrefix;
  }
}
