/**
 * The handful of regular expressions the application uses, each written by hand
 * as a matcher at one position, and the two ways `String.prototype.replace`
 * applies a regular expression: every match (`g` flag) or only the first.
 */
module JsRegex {
  import opened JsText

  /** The regular expressions of the application, by the place that uses them. */
  datatype Pattern =
    | DotStarAll        // /.*/gs                                  (route, code-block rewrite)
    | IgnoreInstr       // /ignore (previous|above|all) instructions/gi
    | ForgetInstr       // /forget (previous|above|all) instructions/gi
    | SystemColonPrompt // /system:\s*prompt/gi
    | YouAreNow         // /you (are|should) (now|instead)/gi
    | ScriptBlock       // /<script\b[^<]*(?:(?!<\/script>)<[^<]*)*<\/script>/gi   (client)
    | SlashCommand      // /^\/(system|admin|debug)\s/i
    | PromptMarker      // /\[\[\s*prompt\s*\]\]/gi

  /** The alternatives of the phrase filters, spelled out in the order the regex tries them. */
  const IgnoreAlternatives: seq<string> := ["ignore previous instructions", "ignore above instructions", "ignore all instructions"]
  const ForgetAlternatives: seq<string> := ["forget previous instructions", "forget above instructions", "forget all instructions"]
  const YouAlternatives: seq<string> := ["you are now", "you are instead", "you should now", "you should instead"]
  const CommandAlternatives: seq<string> := ["/system", "/admin", "/debug"]

  /** First index at or after `from` that is not whitespace (or `|s|`): a greedy `\s*`. */
  function SkipSpaces(s: string, from: nat): (j: nat)
    requires from <= |s|
    ensures from <= j <= |s|
    ensures forall k :: from <= k < j ==> IsJsSpace(s[k])
    ensures j < |s| ==> !IsJsSpace(s[j])
    decreases |s| - from
  {
    if from < |s| && IsJsSpace(s[from]) then SkipSpaces(s, from + 1) else from
  }

  /** `SkipSpaces` stops at the first non-space after a run of spaces. */
  lemma {:induction false} SkipSpacesOver(s: string, from: nat, to: nat)
    requires from <= to <= |s|
    requires forall k :: from <= k < to ==> IsJsSpace(s[k])
    requires to < |s| ==> !IsJsSpace(s[to])
    ensures SkipSpaces(s, from) == to
    decreases (to as int) - from
  {
    if from < to {
      SkipSpacesOver(s, from + 1, to);
    }
  }

  /** Length of the first alternative among `alts` that, case-insensitively, starts `t`. */
  function FirstAlternative(t: string, alts: seq<string>): (r: Option<nat>)
    ensures r.Some? ==> r.value <= |t| && exists a :: a in alts && |a| == r.value && StartsWithCI(t, a)
  {
    if |alts| == 0 then None
    else if StartsWithCI(t, alts[0]) then Some(|alts[0]|)
    else FirstAlternative(t, alts[1..])
  }

  /** The closing tag `<\/script>` of an `/i` pattern starts at `k`: its letters in either case, the rest exactly. */
  predicate ClosesAt(s: string, k: nat)
    requires k <= |s|
  {
    && k + 9 <= |s|
    && s[k] == '<' && s[k + 1] == '/'
    && AsciiLower(s[k + 2]) == 's' && AsciiLower(s[k + 3]) == 'c' && AsciiLower(s[k + 4]) == 'r'
    && AsciiLower(s[k + 5]) == 'i' && AsciiLower(s[k + 6]) == 'p' && AsciiLower(s[k + 7]) == 't'
    && s[k + 8] == '>'
  }

  /** Earliest position at or after `from` where the closing tag starts. */
  function FindCloseTag(s: string, from: nat): (r: Option<nat>)
    requires from <= |s|
    ensures r.Some? ==> from <= r.value && r.value + 9 <= |s| && ClosesAt(s, r.value)
    ensures r.Some? ==> forall k :: from <= k < r.value ==> !ClosesAt(s, k)
    ensures r.None? ==> forall k :: from <= k <= |s| ==> !ClosesAt(s, k)
    decreases |s| - from
  {
    if ClosesAt(s, from) then Some(from)
    else if from == |s| then None
    else FindCloseTag(s, from + 1)
  }

  /** The closing tag is found at `q` when it starts there and nowhere from `from` up to `q`. */
  lemma {:induction false} FindCloseTagAt(s: string, from: nat, q: nat)
    requires from <= q <= |s| && ClosesAt(s, q)
    requires forall k :: from <= k < q ==> !ClosesAt(s, k)
    ensures FindCloseTag(s, from) == Some(q)
    decreases q - from
  {
    if from < q {
      FindCloseTagAt(s, from + 1, q);
    }
  }

  /** The closing tag is found at `q` when nothing from `from` up to `q` is a `<`. */
  lemma {:induction false} FindCloseTagSkip(s: string, from: nat, q: nat)
    requires from <= q <= |s| && ClosesAt(s, q)
    requires forall k :: from <= k < q ==> s[k] != '<'
    ensures FindCloseTag(s, from) == Some(q)
    decreases q - from
  {
    if from < q {
      assert s[from..][0] == s[from];
      assert !ClosesAt(s, from);
      FindCloseTagSkip(s, from + 1, q);
    }
  }

  /**
   * Length of the match of pattern `p` that starts exactly at position `i` of `s`, if any.
   * Each case follows its regular expression, greedy quantifiers and backtracking included;
   * where a quantifier is followed by a character it cannot consume, greedy matching
   * gives the only match.
   */
  function MatchAt(p: Pattern, s: string, i: nat): (r: Option<nat>)
    requires i <= |s|
    ensures r.Some? ==> i + r.value <= |s|
  {
    match p
    case DotStarAll => Some(|s| - i)
    case IgnoreInstr => FirstAlternative(s[i..], IgnoreAlternatives)
    case ForgetInstr => FirstAlternative(s[i..], ForgetAlternatives)
    case SystemColonPrompt => MatchSystemPrompt(s, i)
    case YouAreNow => FirstAlternative(s[i..], YouAlternatives)
    case ScriptBlock => MatchScriptBlock(s, i)
    case SlashCommand => MatchSlashCommand(s, i)
    case PromptMarker => MatchPromptMarker(s, i)
  }

  /** The word `prompt` of an `/i` pattern starts at `j`, each letter in either case. */
  predicate PromptAt(s: string, j: nat)
    requires j <= |s|
  {
    && j + 6 <= |s|
    && AsciiLower(s[j]) == 'p' && AsciiLower(s[j + 1]) == 'r' && AsciiLower(s[j + 2]) == 'o'
    && AsciiLower(s[j + 3]) == 'm' && AsciiLower(s[j + 4]) == 'p' && AsciiLower(s[j + 5]) == 't'
  }

  /** `system:\s*prompt` at `i`: `system:` in any case, a run of spaces, `prompt` in any case. */
  function MatchSystemPrompt(s: string, i: nat): (r: Option<nat>)
    requires i <= |s|
    ensures r.Some? ==> i + r.value <= |s|
    ensures r.Some? ==>
      && 13 <= r.value && StartsWithCI(s[i..], "system:")
      && PromptAt(s, i + r.value - 6) && IsSpaceRun(s[i + 7..i + r.value - 6])
  {
    if StartsWithCI(s[i..], "system:") then
      var j := SkipSpaces(s, i + 7);
      if PromptAt(s, j) then
        Some(j + 6 - i)
      else None
    else None
  }

  /**
   * `<script\b[^<]*(?:(?!<\/script>)<[^<]*)*<\/script>` at `i`: `<script` in any case and
   * not followed by a word character, then everything up to and including the nearest
   * closing tag; an opening with no closing tag after it does not match.
   */
  function MatchScriptBlock(s: string, i: nat): (r: Option<nat>)
    requires i <= |s|
    ensures r.Some? ==> i + r.value <= |s|
    ensures r.Some? ==>
      && 16 <= r.value && StartsWithCI(s[i..], "<script") && !IsWordChar(s[i + 7])
      && ClosesAt(s, i + r.value - 9) && forall k :: i + 7 <= k < i + r.value - 9 ==> !ClosesAt(s, k)
    ensures r.None? && StartsWithCI(s[i..], "<script") && (i + 7 == |s| || !IsWordChar(s[i + 7])) ==>
      forall k :: i + 7 <= k <= |s| ==> !ClosesAt(s, k)
  {
    if StartsWithCI(s[i..], "<script") then
      // `\b` after the `t` of `<script`: the next character is not a word character
      if i + 7 == |s| || !IsWordChar(s[i + 7]) then
        // the body `[^<]*(?:(?!<\/script>)<[^<]*)*` stops before the nearest closing tag
        match FindCloseTag(s, i + 7)
        case None => None
        case Some(q) => Some(q + 9 - i)
      else None
    else None
  }

  /**
   * `^\/(system|admin|debug)\s` at `i`: anchored with `^` and no `m` flag, so only at 0;
   * one of the three commands in any case, then one whitespace code unit.
   */
  function MatchSlashCommand(s: string, i: nat): (r: Option<nat>)
    requires i <= |s|
    ensures r.Some? ==> i + r.value <= |s|
    ensures r.Some? ==>
      && i == 0 && 7 <= r.value && IsJsSpace(s[r.value - 1])
      && ((r.value == 8 && StartsWithCI(s, "/system"))
          || (r.value == 7 && (StartsWithCI(s, "/admin") || StartsWithCI(s, "/debug"))))
  {
    if i != 0 then None
    else
      match FirstAlternative(s, CommandAlternatives)
      case None => None
      case Some(n) => if n < |s| && IsJsSpace(s[n]) then Some(n + 1) else None
  }

  /**
   * `\[\[\s*prompt\s*\]\]` at `i`: `[[`, a run of spaces, `prompt` in any case, a run of
   * spaces, `]]` (what lies between the brackets is stated by `MarkerMatchShape`).
   */
  function MatchPromptMarker(s: string, i: nat): (r: Option<nat>)
    requires i <= |s|
    ensures r.Some? ==> i + r.value <= |s|
    ensures r.Some? ==>
      && 10 <= r.value && s[i] == '[' && s[i + 1] == '['
      && s[i + r.value - 2] == ']' && s[i + r.value - 1] == ']'
  {
    if i + 2 <= |s| && s[i] == '[' && s[i + 1] == '[' then
      var j := SkipSpaces(s, i + 2);
      if PromptAt(s, j) then
        var k := SkipSpaces(s, j + 6);
        if k + 2 <= |s| && s[k] == ']' && s[k + 1] == ']' then Some(k + 2 - i) else None
      else None
    else None
  }

  /** `system:`, a run of spaces and `prompt`, each word in any case: the filter matches all of it. */
  lemma SystemPromptMatched(s: string, i: nat, j: nat)
    requires i + 7 <= j <= |s| && StartsWithCI(s[i..], "system:")
    requires IsSpaceRun(s[i + 7..j]) && PromptAt(s, j)
    ensures MatchSystemPrompt(s, i) == Some(j + 6 - i)
  {
    forall k | i + 7 <= k < j
      ensures IsJsSpace(s[k])
    {
      assert s[k] == s[i + 7..j][k - i - 7];
    }
    assert !IsJsSpace(s[j]) by {
      assert AsciiLower(s[j]) == 'p';
    }
    SkipSpacesOver(s, i + 7, j);
  }

  /** What a marker match holds between its brackets: a run of spaces, `prompt` in any case, a run of spaces. */
  lemma MarkerMatchShape(s: string, i: nat)
    requires i <= |s|
    ensures var r := MatchPromptMarker(s, i);
      r.Some? ==> (exists j :: i + 2 <= j && j + 6 <= i + r.value - 2 && PromptAt(s, j)
                     && IsSpaceRun(s[i + 2..j]) && IsSpaceRun(s[j + 6..i + r.value - 2]))
  {
    var r := MatchPromptMarker(s, i);
    if r.Some? {
      var j := SkipSpaces(s, i + 2);
      var k := SkipSpaces(s, j + 6);
      assert k == i + r.value - 2;
      assert IsSpaceRun(s[i + 2..j]);
      assert IsSpaceRun(s[j + 6..k]);
    }
  }

  /** A marker match opens with `[[` and, after optional spaces, a `p` in either case. */
  lemma MarkerNeedsOpen(s: string, k: nat)
    requires k <= |s|
    ensures MatchAt(PromptMarker, s, k).Some? ==>
      && k + 2 <= |s| && s[k] == '[' && s[k + 1] == '['
      && SkipSpaces(s, k + 2) < |s| && AsciiLower(s[SkipSpaces(s, k + 2)]) == 'p'
  {
  }

  /** A run of whitespace, possibly empty: what `\s*` consumes. */
  predicate IsSpaceRun(w: string) {
    forall k :: 0 <= k < |w| ==> IsJsSpace(w[k])
  }

  /** `prompt` in some mix of cases. */
  predicate IsPromptWord(word: string) {
    |word| == 6 && PromptAt(word, 0)
  }

  /** No `[[` inside `x`. */
  predicate NoDoubleOpen(x: string) {
    forall k :: 0 <= k < |x| - 1 ==> !(x[k] == '[' && x[k + 1] == '[')
  }

  /** `[[`, spaces, `prompt` in any case, spaces, `]]`: the marker matches there, all of it. */
  lemma MarkerMatched(pre: string, w1: string, word: string, w2: string, post: string)
    requires IsSpaceRun(w1) && IsSpaceRun(w2) && IsPromptWord(word)
    ensures MatchAt(PromptMarker, pre + "[[" + w1 + word + w2 + "]]" + post, |pre|) == Some(10 + |w1| + |w2|)
  {
    var s := pre + "[[" + w1 + word + w2 + "]]" + post;
    var i := |pre|;
    var j := i + 2 + |w1|;
    var k := j + 6 + |w2|;
    assert s[i] == '[' && s[i + 1] == '[';
    assert PromptAt(s, j) by {
      assert forall m :: j <= m < j + 6 ==> s[m] == word[m - j];
    }
    assert forall m :: i + 2 <= m < j ==> s[m] == w1[m - i - 2];
    assert forall m :: j + 6 <= m < k ==> s[m] == w2[m - j - 6];
    assert s[k] == ']' && s[k + 1] == ']';
    MarkerSpan(s, i, j, k);
  }

  /** The marker matcher over positions: `[[` at `i`, spaces, `prompt` at `j`, spaces, `]]` at `k`. */
  lemma MarkerSpan(s: string, i: nat, j: nat, k: nat)
    requires i + 2 <= j && j + 6 <= k && k + 2 <= |s|
    requires s[i] == '[' && s[i + 1] == '['
    requires forall m :: i + 2 <= m < j ==> IsJsSpace(s[m])
    requires PromptAt(s, j)
    requires forall m :: j + 6 <= m < k ==> IsJsSpace(s[m])
    requires s[k] == ']' && s[k + 1] == ']'
    ensures MatchAt(PromptMarker, s, i) == Some(k + 2 - i)
  {
    SkipSpacesOver(s, i + 2, j);
    SkipSpacesOver(s, j + 6, k);
    assert MatchPromptMarker(s, i) == Some(k + 2 - i);
  }

  /**
   * `/\[\[\s*prompt\s*\]\]/gi` on a string holding one marker, with no other `[[` before or
   * after it: the marker, spaces and case variants included, is replaced and the rest kept.
   */
  lemma MarkerReplaced(pre: string, w1: string, word: string, w2: string, post: string, repl: string)
    requires IsSpaceRun(w1) && IsSpaceRun(w2) && IsPromptWord(word)
    requires NoDoubleOpen(pre) && NoDoubleOpen(post)
    ensures ReplaceAll(PromptMarker, pre + "[[" + w1 + word + w2 + "]]" + post, repl) == pre + repl + post
  {
    var s := pre + "[[" + w1 + word + w2 + "]]" + post;
    var n := 10 + |w1| + |w2|;
    MarkerMatched(pre, w1, word, w2, post);
    MarkerMatchedOnly(pre, w1, word, w2, post);
    SingleMatchReplaced(PromptMarker, s, repl, |pre|, n);
    assert s[..|pre|] == pre;
    assert s[|pre| + n..] == post;
  }

  /**
   * A `[[` at `i` with no `[` after it up to `e`, and no other `[[` before `i` or from
   * `e` on: the marker can match at `i` and nowhere else.
   */
  lemma MarkerOnlyAt(s: string, i: nat, e: nat)
    requires i + 3 <= e <= |s| && s[i] == '[' && s[i + 1] == '['
    requires forall m :: i + 2 <= m < e ==> s[m] != '['
    requires forall m :: 0 <= m < i - 1 ==> !(s[m] == '[' && s[m + 1] == '[')
    requires forall m :: e <= m < |s| - 1 ==> !(s[m] == '[' && s[m + 1] == '[')
    ensures forall k :: 0 <= k <= |s| && k != i ==> !MatchesAt(PromptMarker, s, k)
  {
    forall k | 0 <= k <= |s| && k != i
      ensures !MatchesAt(PromptMarker, s, k)
    {
      MarkerNeedsOpen(s, k);
      if k + 1 == i {
        SkipSpacesOver(s, k + 2, k + 2);
        assert AsciiLower(s[k + 2]) == '[';
      } else if k == i + 1 {
        assert s[k + 1] != '[';
      } else if i + 2 <= k < e {
        assert s[k] != '[';
      }
    }
  }

  /** The marker in its surroundings: it matches where it stands and nowhere else. */
  lemma MarkerMatchedOnly(pre: string, w1: string, word: string, w2: string, post: string)
    requires IsSpaceRun(w1) && IsSpaceRun(w2) && IsPromptWord(word)
    requires NoDoubleOpen(pre) && NoDoubleOpen(post)
    ensures var s := pre + "[[" + w1 + word + w2 + "]]" + post;
      forall k :: 0 <= k < |pre| ==> !MatchesAt(PromptMarker, s, k)
    ensures var s := pre + "[[" + w1 + word + w2 + "]]" + post;
      forall k :: |pre| + 10 + |w1| + |w2| <= k <= |s| ==> !MatchesAt(PromptMarker, s, k)
  {
    var s := pre + "[[" + w1 + word + w2 + "]]" + post;
    var i := |pre|;
    var j := i + 2 + |w1|;
    var e := j + 8 + |w2|;
    assert s[i] == '[' && s[i + 1] == '[';
    assert forall m :: i + 2 <= m < j ==> s[m] == w1[m - i - 2];
    assert forall m :: j <= m < j + 6 ==> s[m] == word[m - j];
    assert forall m :: j + 6 <= m < e - 2 ==> s[m] == w2[m - j - 6];
    assert s[e - 2] == ']' && s[e - 1] == ']';
    forall m | i + 2 <= m < e
      ensures s[m] != '['
    {
      if j <= m < j + 6 {
        assert s[m] == word[m - j];
      }
    }
    assert forall m :: 0 <= m < i ==> s[m] == pre[m];
    assert forall m :: e <= m < |s| ==> s[m] == post[m - e];
    MarkerOnlyAt(s, i, e);
  }

  /** A script-block match starts with a `<`. */
  lemma ScriptNeedsOpen(s: string, k: nat)
    requires k <= |s|
    ensures MatchAt(ScriptBlock, s, k).Some? ==> k < |s| && s[k] == '<'
  {
    if StartsWithCI(s[k..], "<script") {
      assert AsciiLower(s[k..][0]) == AsciiLower('<');
    }
  }

  /**
   * Between `<script>` at `i` and a `<` at `q`, the text there being `body`, no closing
   * tag starts: none inside `body`, and none that would run on into the `<` at `q`.
   */
  lemma NoCloseBefore(s: string, i: nat, body: string)
    requires i + 17 + |body| <= |s| && s[i + 7] == '>' && s[i + 8 + |body|] == '<'
    requires forall m :: 0 <= m < |body| ==> s[i + 8 + m] == body[m]
    requires forall k :: 0 <= k <= |body| ==> !ClosesAt(body, k)
    ensures forall p :: i + 7 <= p < i + 8 + |body| ==> !ClosesAt(s, p)
  {
    var q := i + 8 + |body|;
    forall p | i + 7 <= p < q
      ensures !ClosesAt(s, p)
    {
      if p + 9 <= q && i + 7 < p {
        var m := p - i - 8;
        assert !ClosesAt(body, m);
        assert forall j :: p <= j < p + 9 ==> s[j] == body[j - i - 8];
      }
    }
  }

  /** `<script>`, a body without a closing tag, `</script>`: the block matches, all of it. */
  lemma ScriptMatched(pre: string, body: string, post: string)
    requires forall k :: 0 <= k <= |body| ==> !ClosesAt(body, k)
    ensures MatchAt(ScriptBlock, pre + "<script>" + body + "</script>" + post, |pre|) == Some(17 + |body|)
  {
    var s := pre + "<script>" + body + "</script>" + post;
    var i := |pre|;
    var q := i + 8 + |body|;
    assert forall m :: 0 <= m < 7 ==> s[i..][m] == "<script"[m];
    assert s[i + 7] == '>';
    assert forall m :: 0 <= m < |body| ==> s[i + 8 + m] == body[m];
    assert s[q..q + 9] == "</script>";
    assert ClosesAt(s, q);
    ScriptSpan(s, i, body);
  }

  /** The script matcher over positions: `<script>` at `i`, then `body`, then a closing tag. */
  lemma ScriptSpan(s: string, i: nat, body: string)
    requires i + 17 + |body| <= |s|
    requires StartsWithCI(s[i..], "<script") && s[i + 7] == '>'
    requires forall m :: 0 <= m < |body| ==> s[i + 8 + m] == body[m]
    requires forall k :: 0 <= k <= |body| ==> !ClosesAt(body, k)
    requires ClosesAt(s, i + 8 + |body|)
    ensures MatchAt(ScriptBlock, s, i) == Some(17 + |body|)
  {
    var q := i + 8 + |body|;
    NoCloseBefore(s, i, body);
    FindCloseTagAt(s, i + 7, q);
    assert !IsWordChar(s[i + 7]);
    assert MatchScriptBlock(s, i) == Some(q + 9 - i);
  }

  /**
   * `/<script\b[^<]*(?:(?!<\/script>)<[^<]*)*<\/script>/gi` on a string holding one
   * `<script>` block whose body has no closing tag, with no `<` before or after it:
   * the block is replaced and the rest kept.
   */
  lemma ScriptReplaced(pre: string, body: string, post: string, repl: string)
    requires '<' !in pre && '<' !in post
    requires forall k :: 0 <= k <= |body| ==> !ClosesAt(body, k)
    ensures ReplaceAll(ScriptBlock, pre + "<script>" + body + "</script>" + post, repl) == pre + repl + post
  {
    var s := pre + "<script>" + body + "</script>" + post;
    var i, n := |pre|, 17 + |body|;
    ScriptMatched(pre, body, post);
    forall k | 0 <= k <= |s| && (k < i || i + n <= k)
      ensures !MatchesAt(ScriptBlock, s, k)
    {
      ScriptNeedsOpen(s, k);
      if k < i {
        assert s[k] == pre[k];
      } else if k < |s| {
        assert s[k] == post[k - i - n];
      }
    }
    SingleMatchReplaced(ScriptBlock, s, repl, i, n);
    assert s[..i] == pre;
    assert s[i + n..] == post;
  }

  /** A match is found at `i`. */
  predicate MatchesAt(p: Pattern, s: string, i: nat)
    requires i <= |s|
  {
    MatchAt(p, s, i).Some?
  }

  /**
   * What the pattern matches at each position of `s`, from 0 to `|s|`: the table a
   * `replace` consults as its `lastIndex` moves along the string.
   */
  function MatchTable(p: Pattern, s: string): (t: seq<Option<nat>>)
    ensures IsMatchTable(s, t)
    ensures forall k {:trigger MatchAt(p, s, k)} :: 0 <= k <= |s| ==> t[k] == MatchAt(p, s, k)
  {
    MatchesFrom(p, s, 0)
  }

  /** The entries of the table from position `from` on. */
  function MatchesFrom(p: Pattern, s: string, from: nat): (t: seq<Option<nat>>)
    requires from <= |s| + 1
    ensures |t| == |s| + 1 - from
    ensures forall j :: 0 <= j < |t| && t[j].Some? ==> from + j + t[j].value <= |s|
    ensures forall k {:trigger MatchAt(p, s, k)} :: from <= k <= |s| ==> t[k - from] == MatchAt(p, s, k)
    decreases |s| + 1 - from
  {
    if from > |s| then [] else [MatchAt(p, s, from)] + MatchesFrom(p, s, from + 1)
  }

  /** One entry per position of `s` and its end, each match lying inside `s`. */
  predicate IsMatchTable(s: string, t: seq<Option<nat>>) {
    |t| == |s| + 1 && forall k :: 0 <= k < |t| && t[k].Some? ==> k + t[k].value <= |s|
  }

  /** The leftmost match starting at or after `from`, as (position, length). */
  function FindFrom(s: string, t: seq<Option<nat>>, from: nat): (r: Option<(nat, nat)>)
    requires IsMatchTable(s, t) && from <= |s|
    ensures r.Some? ==> from <= r.value.0 && r.value.0 + r.value.1 <= |s|
    decreases |s| - from
  {
    match t[from]
    case Some(n) => Some((from, n))
    case None => if from == |s| then None else FindFrom(s, t, from + 1)
  }

  /** The search finds the leftmost match: there is none before it, and none at all when it finds nothing. */
  lemma {:induction false} FindFromLeftmost(s: string, t: seq<Option<nat>>, from: nat)
    requires IsMatchTable(s, t) && from <= |s|
    ensures var r := FindFrom(s, t, from);
      && (r.Some? ==> t[r.value.0] == Some(r.value.1))
      && (r.Some? ==> forall k :: from <= k < r.value.0 ==> t[k].None?)
      && (r.None? ==> forall k :: from <= k <= |s| ==> t[k].None?)
    decreases |s| - from
  {
    if t[from].None? && from < |s| {
      FindFromLeftmost(s, t, from + 1);
    }
  }

  /** Where the table holds no match from `from` on, the search finds nothing. */
  lemma FindFromNone(s: string, t: seq<Option<nat>>, from: nat)
    requires IsMatchTable(s, t) && from <= |s|
    requires forall k :: from <= k <= |s| ==> t[k].None?
    ensures FindFrom(s, t, from).None?
  {
    FindFromLeftmost(s, t, from);
  }

  /**
   * The loop of a global `replace`: `searchFrom` plays `lastIndex`, `copyFrom` the end of
   * the previous match. After an empty match `lastIndex` moves one code unit on while the
   * copy position stays, so the character there is kept.
   */
  function ReplaceAllFrom(s: string, t: seq<Option<nat>>, repl: string, copyFrom: nat, searchFrom: nat): string
    requires IsMatchTable(s, t) && copyFrom <= |s| && copyFrom <= searchFrom
    decreases |s| + 1 - searchFrom, 1
  {
    if searchFrom > |s| then s[copyFrom..]
    else ReplaceMatch(s, t, repl, copyFrom, searchFrom, FindFrom(s, t, searchFrom))
  }

  /** The rest of that loop once the search from `searchFrom` has given `m`. */
  function ReplaceMatch(s: string, t: seq<Option<nat>>, repl: string, copyFrom: nat, searchFrom: nat, m: Option<(nat, nat)>): string
    requires IsMatchTable(s, t) && copyFrom <= searchFrom <= |s|
    requires m.Some? ==> searchFrom <= m.value.0 && m.value.0 + m.value.1 <= |s|
    decreases |s| + 1 - searchFrom, 0
  {
    if m.None? then s[copyFrom..]
    else
      var i, n := m.value.0, m.value.1;
      s[copyFrom..i] + repl + ReplaceAllFrom(s, t, repl, i + n, if n == 0 then i + 1 else i + n)
  }

  /** `s.replace(p, repl)` for a pattern with the `g` flag (and no `$` in `repl`). */
  function ReplaceAll(p: Pattern, s: string, repl: string): string
  {
    ReplaceAllFrom(s, MatchTable(p, s), repl, 0, 0)
  }

  /** `s.replace(p, repl)` for a pattern without the `g` flag: the leftmost match only. */
  function ReplaceFirst(p: Pattern, s: string, repl: string): string
  {
    ReplaceFirstIn(s, MatchTable(p, s), repl)
  }

  /** The first-match replace over the table of matches of `s`. */
  function ReplaceFirstIn(s: string, t: seq<Option<nat>>, repl: string): string
    requires IsMatchTable(s, t)
  {
    match FindFrom(s, t, 0)
    case None => s
    case Some((i, n)) => s[..i] + repl + s[i + n..]
  }

  /** A match at the very start is what a first-match replace replaces. */
  lemma ReplaceFirstAtStart(p: Pattern, s: string, repl: string, n: nat)
    requires MatchAt(p, s, 0) == Some(n)
    ensures n <= |s| && ReplaceFirst(p, s, repl) == repl + s[n..]
  {
    var t := MatchTable(p, s);
    ReplaceFirstInAtStart(s, t, repl, n);
  }

  lemma ReplaceFirstInAtStart(s: string, t: seq<Option<nat>>, repl: string, n: nat)
    requires IsMatchTable(s, t) && t[0] == Some(n)
    ensures n <= |s| && ReplaceFirstIn(s, t, repl) == repl + s[n..]
  {
    assert FindFrom(s, t, 0) == Some((0, n));
    assert s[..0] + repl == repl;
  }

  /** Where a pattern matches nowhere, a first-match replace leaves the string as it is. */
  lemma ReplaceFirstNoMatch(p: Pattern, s: string, repl: string)
    requires forall k :: 0 <= k <= |s| ==> !MatchesAt(p, s, k)
    ensures ReplaceFirst(p, s, repl) == s
  {
    var t := MatchTable(p, s);
    forall k | 0 <= k <= |s|
      ensures t[k].None?
    {
      assert !MatchesAt(p, s, k);
    }
    FindFromNone(s, t, 0);
  }

  /** Where a pattern matches nowhere, a global replace leaves the string as it is. */
  lemma ReplaceAllNoMatch(p: Pattern, s: string, repl: string)
    requires forall k :: 0 <= k <= |s| ==> !MatchesAt(p, s, k)
    ensures ReplaceAll(p, s, repl) == s
  {
    var t := MatchTable(p, s);
    forall k | 0 <= k <= |s|
      ensures t[k].None?
    {
      assert !MatchesAt(p, s, k);
    }
    FindFromNone(s, t, 0);
    ReplaceAllFromSearch(s, t, repl, 0, 0);
    assert s[0..] == s;
  }

  /**
   * `.*` with the `g` and `s` flags matches the whole string and then the empty string at its end: a non-empty
   * string is replaced twice over, the empty string once.
   */
  lemma {:induction false} DotStarReplacesTwice(s: string, repl: string)
    ensures ReplaceAll(DotStarAll, s, repl) == if s == [] then repl else repl + repl
  {
    var t := MatchTable(DotStarAll, s);
    assert MatchAt(DotStarAll, s, 0) == Some(|s|) && MatchAt(DotStarAll, s, |s|) == Some(0);
    assert t[0] == Some(|s|) && t[|s|] == Some(0);
    assert FindFrom(s, t, 0) == Some((0, |s|));
    ReplaceAllFromMatch(s, t, repl, 0, 0, 0, |s|);
    if s == [] {
      assert ReplaceAllFrom(s, t, repl, 0, 1) == [];
    } else {
      assert FindFrom(s, t, |s|) == Some((|s|, 0));
      ReplaceAllFromMatch(s, t, repl, |s|, |s|, |s|, 0);
      assert ReplaceAllFrom(s, t, repl, |s|, |s| + 1) == [];
      assert ReplaceAllFrom(s, t, repl, |s|, |s|) == repl;
    }
  }

  /** A pattern that matches the whole of a non-empty string, and not at its end, replaces it once. */
  lemma WholeMatchReplaced(p: Pattern, s: string, repl: string)
    requires |s| > 0 && MatchAt(p, s, 0) == Some(|s|) && MatchAt(p, s, |s|).None?
    ensures ReplaceAll(p, s, repl) == repl
  {
    assert !MatchesAt(p, s, |s|);
    SingleMatchReplaced(p, s, repl, 0, |s|);
    assert s[..0] + repl + s[|s|..] == repl;
  }

  /**
   * A pattern with one non-empty match in `s`, at `i`, and none elsewhere before it
   * or from its end on: the global replace replaces that match and nothing else.
   */
  lemma SingleMatchReplaced(p: Pattern, s: string, repl: string, i: nat, n: nat)
    requires i <= |s| && MatchAt(p, s, i) == Some(n) && n > 0
    requires forall k :: 0 <= k < i ==> !MatchesAt(p, s, k)
    requires forall k :: i + n <= k <= |s| ==> !MatchesAt(p, s, k)
    ensures i + n <= |s| && ReplaceAll(p, s, repl) == s[..i] + repl + s[i + n..]
  {
    var t := MatchTable(p, s);
    forall k | 0 <= k <= |s| && (k < i || i + n <= k)
      ensures t[k].None?
    {
      assert !MatchesAt(p, s, k);
    }
    ReplaceAllOneMatch(s, t, repl, i, n);
  }

  /**
   * A table whose only entries before `i + n` and from it on are empty, save the
   * match of length `n > 0` at `i`: the replace loop writes `repl` in its place once.
   */
  lemma ReplaceAllOneMatch(s: string, t: seq<Option<nat>>, repl: string, i: nat, n: nat)
    requires IsMatchTable(s, t) && i <= |s| && t[i] == Some(n) && n > 0
    requires forall k :: 0 <= k < i ==> t[k].None?
    requires forall k :: i + n <= k <= |s| ==> t[k].None?
    ensures i + n <= |s| && ReplaceAllFrom(s, t, repl, 0, 0) == s[..i] + repl + s[i + n..]
  {
    FindFromLeftmost(s, t, 0);
    assert FindFrom(s, t, 0) == Some((i, n));
    ReplaceAllFromMatch(s, t, repl, 0, 0, i, n);
    FindFromNone(s, t, i + n);
    ReplaceAllFromSearch(s, t, repl, i + n, i + n);
    assert ReplaceAllFrom(s, t, repl, i + n, i + n) == s[i + n..];
    assert s[0..i] == s[..i];
  }

  /** One step of the replace loop, at a match found at `i` of length `n`. */
  lemma ReplaceAllFromMatch(s: string, t: seq<Option<nat>>, repl: string, copyFrom: nat, searchFrom: nat, i: nat, n: nat)
    requires IsMatchTable(s, t) && copyFrom <= searchFrom <= |s|
    requires FindFrom(s, t, searchFrom) == Some((i, n))
    ensures copyFrom <= i && i + n <= |s|
    ensures ReplaceAllFrom(s, t, repl, copyFrom, searchFrom)
         == s[copyFrom..i] + repl + ReplaceAllFrom(s, t, repl, i + n, if n == 0 then i + 1 else i + n)
  {
    ReplaceAllFromSearch(s, t, repl, copyFrom, searchFrom);
    ReplaceMatchFound(s, t, repl, copyFrom, searchFrom, i, n);
  }

  /** The replace loop, while in range, is its search followed by the step on what was found. */
  lemma ReplaceAllFromSearch(s: string, t: seq<Option<nat>>, repl: string, copyFrom: nat, searchFrom: nat)
    requires IsMatchTable(s, t) && copyFrom <= searchFrom <= |s|
    ensures ReplaceAllFrom(s, t, repl, copyFrom, searchFrom)
         == ReplaceMatch(s, t, repl, copyFrom, searchFrom, FindFrom(s, t, searchFrom))
  {
  }

  /** The step on a match copies the text before it, writes the replacement and carries on after it. */
  lemma ReplaceMatchFound(s: string, t: seq<Option<nat>>, repl: string, copyFrom: nat, searchFrom: nat, i: nat, n: nat)
    requires IsMatchTable(s, t) && copyFrom <= searchFrom <= i && i + n <= |s|
    ensures ReplaceMatch(s, t, repl, copyFrom, searchFrom, Some((i, n)))
         == s[copyFrom..i] + repl + ReplaceAllFrom(s, t, repl, i + n, if n == 0 then i + 1 else i + n)
  {
  }

  /** The letter every match of a phrase filter starts with, ignoring ASCII case. */
  function LeadLetter(p: Pattern): char
  {
    match p
    case IgnoreInstr => 'i'
    case ForgetInstr => 'f'
    case SystemColonPrompt => 's'
    case _ => 'y'
  }

  lemma {:induction false} FirstAlternativeLead(t: string, alts: seq<string>, lead: char)
    requires forall j :: 0 <= j < |alts| ==> |alts[j]| > 0 && AsciiLower(alts[j][0]) == lead
    requires FirstAlternative(t, alts).Some?
    ensures |t| > 0 && AsciiLower(t[0]) == lead
  {
    if StartsWithCI(t, alts[0]) {
    } else {
      FirstAlternativeLead(t, alts[1..], lead);
    }
  }

  /** A match of a phrase filter starts with its lead letter. */
  lemma PhraseMatchLead(p: Pattern, s: string, k: nat)
    requires p in {IgnoreInstr, ForgetInstr, SystemColonPrompt, YouAreNow}
    requires k <= |s| && MatchesAt(p, s, k)
    ensures k < |s| && AsciiLower(s[k]) == LeadLetter(p)
  {
    var t := s[k..];
    if p == SystemColonPrompt {
      assert StartsWithCI(t, "system:");
    } else {
      var alts := if p == IgnoreInstr then IgnoreAlternatives
                  else if p == ForgetInstr then ForgetAlternatives else YouAlternatives;
      assert MatchAt(p, s, k) == FirstAlternative(t, alts);
      AlternativesLead(p, alts);
      FirstAlternativeLead(t, alts, LeadLetter(p));
    }
  }

  lemma AlternativesLead(p: Pattern, alts: seq<string>)
    requires p in {IgnoreInstr, ForgetInstr, YouAreNow}
    requires alts == if p == IgnoreInstr then IgnoreAlternatives
                     else if p == ForgetInstr then ForgetAlternatives else YouAlternatives
    ensures forall j :: 0 <= j < |alts| ==> |alts[j]| > 0 && AsciiLower(alts[j][0]) == LeadLetter(p)
  {
  }

  /** A phrase filter matches nowhere in a string that lacks its lead letter. */
  lemma NoMatchWithoutLead(p: Pattern, s: string)
    requires p in {IgnoreInstr, ForgetInstr, SystemColonPrompt, YouAreNow}
    requires forall k :: 0 <= k < |s| ==> AsciiLower(s[k]) != LeadLetter(p)
    ensures forall k :: 0 <= k <= |s| ==> !MatchesAt(p, s, k)
  {
    forall k | 0 <= k <= |s| && MatchesAt(p, s, k)
      ensures false
    {
      PhraseMatchLead(p, s, k);
    }
  }
}
