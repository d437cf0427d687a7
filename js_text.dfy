/**
 * The JavaScript string operations the application relies on, written out on
 * `string`: whitespace as `trim()` and the regex class `\s` see it, ASCII case
 * folding for `/i` patterns, `split`, `join` and concatenation.
 * One `char` stands for one UTF-16 code unit.
 */
module JsText {

  datatype Option<+T> = None | Some(value: T)

  /** A nullable string that JavaScript treats as true (in `if (v)`, `v || w`, `v ? …`): not null, not "". */
  predicate IsTruthy(v: Option<string>) {
    v.Some? && v.value != ""
  }

  /** WhiteSpace or LineTerminator of ECMA-262: the set `trim()` strips and `\s` matches. */
  predicate IsJsSpace(c: char) {
    || c == '\t' || c == '\U{B}' || c == '\U{C}' || c == ' ' || c == '\U{A0}' || c == '\U{FEFF}'
    || c == '\U{1680}' || ('\U{2000}' <= c <= '\U{200A}') || c == '\U{202F}' || c == '\U{205F}'
    || c == '\U{3000}'
    || c == '\n' || c == '\r' || c == '\U{2028}' || c == '\U{2029}'
  }

  /** Number of whitespace code units at the start of `s`. */
  function LeadingSpaces(s: string): (n: nat)
    ensures n <= |s|
    ensures forall k :: 0 <= k < n ==> IsJsSpace(s[k])
    ensures n < |s| ==> !IsJsSpace(s[n])
  {
    if |s| > 0 && IsJsSpace(s[0]) then 1 + LeadingSpaces(s[1..]) else 0
  }

  /** Number of whitespace code units at the end of `s`. */
  function TrailingSpaces(s: string): (n: nat)
    ensures n <= |s|
    ensures forall k :: |s| - n <= k < |s| ==> IsJsSpace(s[k])
    ensures n < |s| ==> !IsJsSpace(s[|s| - n - 1])
  {
    if |s| > 0 && IsJsSpace(s[|s| - 1]) then 1 + TrailingSpaces(s[..|s| - 1]) else 0
  }

  /** `String.prototype.trimStart` (also the whitespace skip at the start of `parseInt`). */
  function TrimStart(s: string): (r: string)
    ensures |r| <= |s| && r == s[|s| - |r|..]
    ensures r == [] || !IsJsSpace(r[0])
    ensures forall k :: 0 <= k < |s| - |r| ==> IsJsSpace(s[k])
  {
    s[LeadingSpaces(s)..]
  }

  /** `String.prototype.trim`: the longest factor of `s` that neither starts nor ends with whitespace. */
  function Trim(s: string): (r: string)
    ensures |r| <= |s|
    ensures forall k :: 0 <= k < |r| ==> r[k] in s
    ensures r == [] || (!IsJsSpace(r[0]) && !IsJsSpace(r[|r| - 1]))
    ensures r == [] <==> forall k :: 0 <= k < |s| ==> IsJsSpace(s[k])
  {
    var t := TrimStart(s);
    var r := t[..|t| - TrailingSpaces(t)];
    assert forall k :: 0 <= k < |r| ==> r[k] == s[|s| - |t| + k];
    r
  }

  /** A string that neither starts nor ends with whitespace is its own trim. */
  lemma TrimOfTrimmed(s: string)
    requires s == [] || (!IsJsSpace(s[0]) && !IsJsSpace(s[|s| - 1]))
    ensures Trim(s) == s
  {
    assert LeadingSpaces(s) == 0;
    assert TrimStart(s) == s;
    assert TrailingSpaces(s) == 0;
  }

  /** `trim()` is idempotent. */
  lemma TrimIdempotent(s: string)
    ensures Trim(Trim(s)) == Trim(s)
  {
    TrimOfTrimmed(Trim(s));
  }

  /** ASCII-only case folding, which is what `/i` does for the ASCII letters of a pattern. */
  function AsciiLower(c: char): char {
    if 'A' <= c <= 'Z' then (c as int + 32) as char else c
  }

  /** `s` ends with `suffix`. */
  predicate EndsWith(s: string, suffix: string) {
    |suffix| <= |s| && s[|s| - |suffix|..] == suffix
  }

  /** A concatenation of three strings starts with the first, holds the second and ends with the third. */
  lemma ConcatEnds(a: string, b: string, c: string)
    ensures a <= a + b + c && EndsWith(a + b + c, c)
    ensures (a + b + c)[|a|..|a| + |b|] == b
  {
    var s := a + b + c;
    assert s[..|a|] == a;
    assert s[|s| - |c|..] == c;
  }

  /** `t` starts with `lit`, comparing letters without regard to ASCII case. */
  predicate StartsWithCI(t: string, lit: string) {
    |lit| <= |t| && forall j :: 0 <= j < |lit| ==> AsciiLower(t[j]) == AsciiLower(lit[j])
  }

  /** A string starts with any of its prefixes, whatever the case. */
  lemma StartsWithCIOfPrefix(lit: string, rest: string)
    ensures StartsWithCI(lit + rest, lit)
  {
    assert forall j :: 0 <= j < |lit| ==> (lit + rest)[j] == lit[j];
  }

  predicate IsAsciiDigit(c: char) {
    '0' <= c <= '9'
  }

  /** A character of the regex class `\w` (no `u` flag). */
  predicate IsWordChar(c: char) {
    IsAsciiDigit(c) || ('a' <= c <= 'z') || ('A' <= c <= 'Z') || c == '_'
  }

  predicate IsHexDigit(c: char) {
    IsAsciiDigit(c) || ('a' <= c <= 'f') || ('A' <= c <= 'F')
  }

  /** Index of the first `c` in `s`. */
  function IndexOf(s: string, c: char): (r: Option<nat>)
    ensures r.None? ==> c !in s
    ensures r.Some? ==> r.value < |s| && s[r.value] == c && c !in s[..r.value]
  {
    if |s| == 0 then None
    else if s[0] == c then Some(0)
    else match IndexOf(s[1..], c)
      case None => None
      case Some(i) => Some(i + 1)
  }

  /** `s.split(sep)` for a one-character separator. */
  function Split(s: string, sep: char): (parts: seq<string>)
    ensures |parts| >= 1
    ensures forall k :: 0 <= k < |parts| ==> sep !in parts[k]
    decreases |s|
  {
    match IndexOf(s, sep)
    case None => [s]
    case Some(i) => [s[..i]] + Split(s[i + 1..], sep)
  }

  /** Splitting at the first separator, at `j`. */
  lemma SplitAtFirst(s: string, sep: char, j: nat)
    requires j < |s| && s[j] == sep
    requires forall k :: 0 <= k < j ==> s[k] != sep
    ensures Split(s, sep) == [s[..j]] + Split(s[j + 1..], sep)
  {
    assert sep in s;
  }

  /** A part without the separator, then the separator: the part comes off first. */
  lemma SplitCons(part: string, sep: char, rest: string)
    requires forall k :: 0 <= k < |part| ==> part[k] != sep
    ensures Split(part + [sep] + rest, sep) == [part] + Split(rest, sep)
  {
    var s := part + [sep] + rest;
    assert s[..|part|] == part;
    assert s[|part| + 1..] == rest;
    SplitAtFirst(s, sep, |part|);
  }

  /** A string without the separator splits into itself alone. */
  lemma SplitWithout(s: string, sep: char)
    requires forall k :: 0 <= k < |s| ==> s[k] != sep
    ensures Split(s, sep) == [s]
  {
    assert sep !in s;
  }

  /** `parts.join(sep)`. */
  function Join(parts: seq<string>, sep: string): string
  {
    if |parts| == 0 then ""
    else if |parts| == 1 then parts[0]
    else parts[0] + sep + Join(parts[1..], sep)
  }

  /** Every character of a join comes from the separator or from one of the parts. */
  lemma {:induction false} JoinChars(parts: seq<string>, sep: string, c: char)
    requires c in Join(parts, sep)
    ensures c in sep || exists k :: 0 <= k < |parts| && c in parts[k]
    decreases |parts|
  {
    if |parts| == 1 {
      assert c in parts[0];
    } else {
      var rest := Join(parts[1..], sep);
      assert Join(parts, sep) == parts[0] + sep + rest;
      if c in parts[0] {
      } else if c !in sep {
        JoinChars(parts[1..], sep, c);
        var k :| 0 <= k < |parts[1..]| && c in parts[1..][k];
        assert c in parts[k + 1];
      }
    }
  }

  /** Splitting and joining again with the same separator gives back the string. */
  lemma {:induction false} JoinSplit(s: string, sep: char)
    ensures Join(Split(s, sep), [sep]) == s
    decreases |s|
  {
    match IndexOf(s, sep)
    case None =>
    case Some(i) =>
      var rest := Split(s[i + 1..], sep);
      JoinSplit(s[i + 1..], sep);
      assert ([s[..i]] + rest)[1..] == rest;
      assert Join(Split(s, sep), [sep]) == s[..i] + [sep] + Join(rest, [sep]);
      assert s == s[..i] + [sep] + s[i + 1..];
  }

  /** `s.split(sep)[0]`: the part of `s` before its first `sep`, or all of `s`. */
  function FirstField(s: string, sep: char): (r: string)
    ensures sep !in r
    ensures |r| <= |s| && r == s[..|r|]
    ensures |r| < |s| ==> s[|r|] == sep
  {
    Split(s, sep)[0]
  }

  /** The first field is everything before the first separator. */
  lemma FirstFieldOfCons(part: string, rest: string)
    requires ',' !in part
    ensures FirstField(part + [','] + rest, ',') == part
  {
    SplitCons(part, ',', rest);
  }

  /** Concatenation of a list of strings, in order. */
  function Concat(parts: seq<string>): string
  {
    if |parts| == 0 then "" else Concat(parts[..|parts| - 1]) + parts[|parts| - 1]
  }

  lemma {:induction false} ConcatAppend(a: seq<string>, b: seq<string>)
    ensures Concat(a + b) == Concat(a) + Concat(b)
    decreases |b|
  {
    if |b| == 0 {
      assert a + b == a;
    } else {
      ConcatAppend(a, b[..|b| - 1]);
      assert (a + b)[..|a + b| - 1] == a + b[..|b| - 1];
    }
  }
}
