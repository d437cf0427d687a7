/**
 * The address checks of `src/app/page.tsx`: `validateIpAddress` and the choice of the
 * client address from `x-forwarded-for` in `getIpStats`.
 */
module HomePage {
  import opened JsText

  // ---------------------------------------------------------------------------
  // The dotted-quad pattern /^\d{1,3}\.\d{1,3}\.\d{1,3}\.\d{1,3}$/

  /** Number of ASCII digits in the run that starts at `i`. */
  function DigitRun(s: string, i: nat): (d: nat)
    requires i <= |s|
    ensures i + d <= |s|
    ensures forall k :: i <= k < i + d ==> IsAsciiDigit(s[k])
    ensures i + d < |s| ==> !IsAsciiDigit(s[i + d])
    decreases |s| - i
  {
    if i < |s| && IsAsciiDigit(s[i]) then 1 + DigitRun(s, i + 1) else 0
  }

  /**
   * `n` groups `\d{1,3}` separated by `.` match the whole of `t`. A `\d{1,3}` followed by
   * `.` or the end of input can only take the whole digit run, so the run decides.
   */
  predicate Groups(t: string, n: nat)
    decreases n
  {
    var d := DigitRun(t, 0);
    && n >= 1
    && 1 <= d <= 3
    && if n == 1 then d == |t|
       else d < |t| && t[d] == '.' && Groups(t[d + 1..], n - 1)
  }

  /** `/^\d{1,3}\.\d{1,3}\.\d{1,3}\.\d{1,3}$/.test(s)` (no `m` flag: `$` is the end of input). */
  predicate IsDottedQuad(s: string) {
    Groups(s, 4)
  }

  /** One to three ASCII digits. */
  predicate IsDigitGroup(g: string) {
    1 <= |g| <= 3 && forall k :: 0 <= k < |g| ==> IsAsciiDigit(g[k])
  }

  /** Exactly `n` parts, each a digit group. */
  predicate DigitGroups(parts: seq<string>, n: nat) {
    |parts| == n && forall k :: 0 <= k < |parts| ==> IsDigitGroup(parts[k])
  }

  /** The pattern matches `t` exactly when `t` splits at `.` into `n` digit groups. */
  lemma {:induction false} GroupsSplit(t: string, n: nat)
    requires n >= 1
    ensures Groups(t, n) <==> DigitGroups(Split(t, '.'), n)
    decreases n
  {
    match IndexOf(t, '.')
    case None =>
      GroupsWithoutDot(t, n);
    case Some(j) =>
      if n > 1 {
        GroupsSplit(t[j + 1..], n - 1);
      }
      GroupsWithDot(t, n, j);
  }

  /** Text matched by the dotted-quad pattern holds nothing but digits and dots. */
  lemma {:induction false} GroupsCharacters(t: string, n: nat)
    ensures Groups(t, n) ==> forall k :: 0 <= k < |t| ==> IsAsciiDigit(t[k]) || t[k] == '.'
    decreases n
  {
    if Groups(t, n) && n > 1 {
      var d := DigitRun(t, 0);
      var rest := t[d + 1..];
      GroupsCharacters(rest, n - 1);
      forall k | d + 1 <= k < |t|
        ensures IsAsciiDigit(t[k]) || t[k] == '.'
      {
        assert t[k] == rest[k - d - 1];
      }
    }
  }

  /** No `.` in `t`: one group, the whole of `t`. */
  lemma GroupsWithoutDot(t: string, n: nat)
    requires n >= 1
    requires IndexOf(t, '.').None?
    ensures Groups(t, n) <==> DigitGroups(Split(t, '.'), n)
  {
    var d := DigitRun(t, 0);
    assert Split(t, '.') == [t];
    if d < |t| {
      assert t[d] in t;
      assert !Groups(t, n);
      assert !IsDigitGroup(Split(t, '.')[0]);
    }
  }

  /** The first `.` of `t` at `j`: the first group is the digit run, and it must reach the `.`. */
  lemma GroupsWithDot(t: string, n: nat, j: nat)
    requires n >= 1
    requires IndexOf(t, '.') == Some(j)
    requires n > 1 ==> (Groups(t[j + 1..], n - 1) <==> DigitGroups(Split(t[j + 1..], '.'), n - 1))
    ensures Groups(t, n) <==> DigitGroups(Split(t, '.'), n)
  {
    var d := DigitRun(t, 0);
    var rest := Split(t[j + 1..], '.');
    assert Split(t, '.') == [t[..j]] + rest;
    assert j >= d;
    DigitGroupsCons(t[..j], rest, n);
    if j > d {
      assert t[..j][d] == t[d];
      assert !IsDigitGroup(t[..j]);
    } else {
      assert IsDigitGroup(t[..j]) <==> 1 <= d <= 3;
    }
  }

  lemma DigitGroupsCons(g: string, rest: seq<string>, n: nat)
    requires n >= 1
    ensures DigitGroups([g] + rest, n) <==> IsDigitGroup(g) && DigitGroups(rest, n - 1)
  {
    var parts := [g] + rest;
    assert parts[0] == g;
    assert forall k :: 0 <= k < |rest| ==> parts[k + 1] == rest[k];
  }

  /** The pattern holds exactly for four `.`-separated groups of one to three ASCII digits. */
  lemma DottedQuadSplit(s: string)
    ensures IsDottedQuad(s) <==> DigitGroups(Split(s, '.'), 4)
  {
    GroupsSplit(s, 4);
  }

  // ---------------------------------------------------------------------------
  // parseInt(octet, 10)

  /** The value of a string of decimal digits, most significant first. */
  function DecimalValue(digits: string): int {
    if |digits| == 0 then 0
    else 10 * DecimalValue(digits[..|digits| - 1]) + (digits[|digits| - 1] as int - '0' as int)
  }

  /** A digit string has a value between 0 and 10^|digits| - 1. */
  lemma {:induction false} DecimalValueRange(digits: string)
    requires forall k :: 0 <= k < |digits| ==> IsAsciiDigit(digits[k])
    ensures 0 <= DecimalValue(digits) < Pow10(|digits|)
  {
    if |digits| > 0 {
      DecimalValueRange(digits[..|digits| - 1]);
    }
  }

  function Pow10(n: nat): (r: nat)
    ensures r >= 1
  {
    if n == 0 then 1 else 10 * Pow10(n - 1)
  }

  /**
   * `parseInt(s, 10)`: skip leading whitespace, read an optional sign, then the longest run
   * of decimal digits; `None` is `NaN` (no digit).
   */
  function ParseInt10(s: string): (r: Option<int>)
    ensures var t := TrimStart(s);
      r.Some? <==> (|t| > 0 && IsAsciiDigit(t[0])) || (|t| > 1 && (t[0] == '-' || t[0] == '+') && IsAsciiDigit(t[1]))
    ensures r.Some? && r.value < 0 ==> TrimStart(s)[0] == '-'
  {
    ParseSigned(TrimStart(s))
  }

  /** The sign and digits part of `parseInt`, after the whitespace. */
  function ParseSigned(t: string): Option<int> {
    if |t| > 0 && t[0] == '-' then
      (match ParseDigits(t[1..]) case None => None case Some(v) => Some(-v))
    else if |t| > 0 && t[0] == '+' then ParseDigits(t[1..])
    else ParseDigits(t)
  }

  /** The value of the digit run at the start of `t`, if there is one. */
  function ParseDigits(t: string): (r: Option<int>)
    ensures r.Some? <==> |t| > 0 && IsAsciiDigit(t[0])
    ensures r.Some? ==> 0 <= r.value
  {
    var n := DigitRun(t, 0);
    if n == 0 then None
    else
      DecimalValueRange(t[..n]);
      Some(DecimalValue(t[..n]))
  }

  /** On a string of digits only, `parseInt` gives its decimal value: never `NaN`, never negative. */
  lemma ParseIntOfDigits(g: string)
    requires |g| >= 1 && forall k :: 0 <= k < |g| ==> IsAsciiDigit(g[k])
    ensures ParseInt10(g) == Some(DecimalValue(g))
    ensures 0 <= DecimalValue(g)
  {
    assert !IsJsSpace(g[0]);
    assert LeadingSpaces(g) == 0;
    assert TrimStart(g) == g;
    assert DigitRun(g, 0) == |g|;
    assert g[..|g|] == g;
    assert ParseDigits(g) == Some(DecimalValue(g));
    DecimalValueRange(g);
  }

  // ---------------------------------------------------------------------------
  // validateIpAddress

  const MaxOctet := 255

  /** A character the IPv6 check allows: `[0-9a-fA-F:]`. */
  predicate IsHexOrColon(c: char) {
    IsHexDigit(c) || c == ':'
  }

  /** `!/[^0-9a-fA-F:]/.test(s)`. */
  predicate AllHexOrColon(s: string) {
    forall k :: 0 <= k < |s| ==> IsHexOrColon(s[k])
  }

  /** Every group is at most 255. */
  predicate OctetsInRange(octets: seq<string>) {
    forall k :: 0 <= k < |octets| ==> DecimalValue(octets[k]) <= MaxOctet
  }

  /**
   * What `validateIpAddress` accepts: a dotted quad whose four groups are at most 255, or
   * any other string that contains `:` and nothing but hex digits and `:`.
   */
  function IpValidation(ip: Option<string>): (r: Option<string>)
    ensures r == None || r == ip
  {
    if !IsTruthy(ip) then None
    else
      var s := ip.value;
      if DigitGroups(Split(s, '.'), 4) then
        if OctetsInRange(Split(s, '.')) then ip else None
      else if ':' in s && AllHexOrColon(s) then ip
      else None
  }

  /**
   * The loop over the octets of a dotted quad: `parseInt` each one and stop at the first
   * that is `NaN`, negative or above 255. On digit groups only the bound can fail.
   */
  method CheckOctets(octets: seq<string>) returns (inRange: bool)
    requires forall k :: 0 <= k < |octets| ==> IsDigitGroup(octets[k])
    ensures inRange == OctetsInRange(octets)
  {
    for i := 0 to |octets|
      invariant forall k :: 0 <= k < i ==> DecimalValue(octets[k]) <= MaxOctet
    {
      var octet := octets[i];
      ParseIntOfDigits(octet);
      var num := ParseInt10(octet);
      if num.None? || num.value < 0 || num.value > MaxOctet {
        return false;
      }
    }
    return true;
  }

  /**
   * `validateIpAddress`, with its loop over the octets and the early returns. The `NaN`
   * and negative tests are there, and the postcondition shows they never decide anything.
   */
  method ValidateIpAddress(ip: Option<string>) returns (r: Option<string>)
    ensures r == IpValidation(ip)
    ensures r == None || (r == ip && r.value != "")
  {
    if !IsTruthy(ip) {
      return None;
    }
    var s := ip.value;
    DottedQuadSplit(s);
    if IsDottedQuad(s) {
      var inRange := CheckOctets(Split(s, '.'));
      return if inRange then ip else None;
    }
    if ':' in s {
      if !AllHexOrColon(s) {
        return None;
      }
      return ip;
    }
    return None;
  }

  /**
   * Four digit groups joined by `.` are accepted, unchanged, exactly when every group is at
   * most 255; leading zeros are read as decimal.
   */
  lemma DottedQuadAccepted(a: string, b: string, c: string, d: string)
    requires IsDigitGroup(a) && IsDigitGroup(b) && IsDigitGroup(c) && IsDigitGroup(d)
    ensures var s := a + "." + (b + "." + (c + "." + d));
      IpValidation(Some(s))
        == if DecimalValue(a) <= MaxOctet && DecimalValue(b) <= MaxOctet
              && DecimalValue(c) <= MaxOctet && DecimalValue(d) <= MaxOctet
           then Some(s) else None
  {
    var s := a + "." + (b + "." + (c + "." + d));
    SplitFour(a, b, c, d);
    QuadValidation(s, [a, b, c, d]);
    OctetsInRangeFour(a, b, c, d);
  }

  lemma QuadValidation(s: string, parts: seq<string>)
    requires Split(s, '.') == parts && DigitGroups(parts, 4)
    ensures IpValidation(Some(s)) == if OctetsInRange(parts) then Some(s) else None
  {
    assert s != [] by {
      assert parts[0] != [] && parts[0] == s[..|parts[0]|];
    }
  }

  lemma OctetsInRangeFour(a: string, b: string, c: string, d: string)
    ensures OctetsInRange([a, b, c, d])
        <==> (DecimalValue(a) <= MaxOctet && DecimalValue(b) <= MaxOctet
              && DecimalValue(c) <= MaxOctet && DecimalValue(d) <= MaxOctet)
  {
    var parts := [a, b, c, d];
    if !OctetsInRange(parts) {
      var k :| 0 <= k < 4 && DecimalValue(parts[k]) > MaxOctet;
      assert k == 0 || k == 1 || k == 2 || k == 3;
    } else {
      assert DecimalValue(parts[0]) <= MaxOctet && DecimalValue(parts[1]) <= MaxOctet;
      assert DecimalValue(parts[2]) <= MaxOctet && DecimalValue(parts[3]) <= MaxOctet;
    }
  }

  lemma SplitFour(a: string, b: string, c: string, d: string)
    requires forall k :: 0 <= k < |a| ==> a[k] != '.'
    requires forall k :: 0 <= k < |b| ==> b[k] != '.'
    requires forall k :: 0 <= k < |c| ==> c[k] != '.'
    requires forall k :: 0 <= k < |d| ==> d[k] != '.'
    ensures Split(a + "." + (b + "." + (c + "." + d)), '.') == [a, b, c, d]
  {
    SplitWithout(d, '.');
    SplitDot(c, d, [d]);
    SplitDot(b, c + "." + d, [c, d]);
    SplitDot(a, b + "." + (c + "." + d), [b, c, d]);
  }

  /** A part without `.`, then `.`: the part comes off the front of the split. */
  lemma SplitDot(part: string, rest: string, tail: seq<string>)
    requires forall k :: 0 <= k < |part| ==> part[k] != '.'
    requires Split(rest, '.') == tail
    ensures Split(part + "." + rest, '.') == [part] + tail
  {
    SplitCons(part, '.', rest);
  }

  /** Every dotted quad is such a join of its four groups. */
  lemma DottedQuadIsJoin(s: string)
    requires DigitGroups(Split(s, '.'), 4)
    ensures var p := Split(s, '.');
      s == p[0] + "." + (p[1] + "." + (p[2] + "." + p[3]))
  {
    var p := Split(s, '.');
    JoinSplit(s, '.');
    assert Join(p[3..], ".") == p[3];
    assert Join(p[2..], ".") == p[2] + "." + Join(p[3..], ".");
    assert Join(p[1..], ".") == p[1] + "." + Join(p[2..], ".");
    assert Join(p, ".") == p[0] + "." + Join(p[1..], ".");
  }

  /** "256.0.0.1" is refused by the octet bound. */
  lemma OctetAboveBoundRefused(s: string)
    requires s == "256.0.0.1"
    ensures IpValidation(Some(s)) == None
  {
    var a, z, o := "256", "0", "1";
    assert s == a + "." + (z + "." + (z + "." + o));
    var a2 := a[..2];
    var a1 := a2[..1];
    assert a1 == "2" && a2 == "25";
    assert DecimalValue(a1) == 2;
    assert DecimalValue(a2) == 25;
    assert DecimalValue(a) == 256;
    DottedQuadAccepted(a, z, z, o);
  }

  /** "010.0.0.1" is accepted as it is. */
  lemma LeadingZeroAccepted(s: string)
    requires s == "010.0.0.1"
    ensures IpValidation(Some(s)) == Some(s)
  {
    var a, z, o := "010", "0", "1";
    assert s == a + "." + (z + "." + (z + "." + o));
    var a2 := a[..2];
    var a1 := a2[..1];
    assert a1 == "0" && a2 == "01";
    assert DecimalValue(a1) == 0;
    assert DecimalValue(a2) == 1;
    assert DecimalValue(a) == 10;
    assert DecimalValue(z) == 0 && DecimalValue(o) == 1;
    DottedQuadAccepted(a, z, z, o);
  }

  /** "::1" passes the check for `:`-addresses, and so does ":", which is no IPv6 address. */
  lemma ColonFormsAccepted(s: string)
    requires s == "::1" || s == ":"
    ensures IpValidation(Some(s)) == Some(s)
  {
    SplitWithout(s, '.');
    assert !IsDigitGroup(s);
    assert AllHexOrColon(s);
    assert s[0] == ':';
  }

  /** Anything that is not four digit groups is judged by the check for `:`-addresses. */
  lemma NonQuadValidation(s: string, parts: seq<string>)
    requires Split(s, '.') == parts && !DigitGroups(parts, 4)
    ensures IpValidation(Some(s)) == if ':' in s && AllHexOrColon(s) then Some(s) else None
  {
  }

  /** A dotted quad holds no `:`. */
  lemma QuadHasNoColon(s: string)
    ensures DigitGroups(Split(s, '.'), 4) ==> forall k :: 0 <= k < |s| ==> s[k] != ':'
  {
    DottedQuadSplit(s);
    GroupsCharacters(s, 4);
  }

  /**
   * A string holding both `:` and `.` is refused: `:` rules out a dotted quad, and `.` is
   * not allowed by the check for `:`-addresses. An address with a port is such a string.
   */
  lemma ColonAndDotRefused(s: string, i: nat, j: nat)
    requires i < |s| && s[i] == ':'
    requires j < |s| && s[j] == '.'
    ensures IpValidation(Some(s)) == None
  {
    QuadHasNoColon(s);
    assert !IsHexOrColon(s[j]);
  }

  /** "1.2.3.4:80" is refused. */
  lemma AddressWithPortRefused(s: string)
    requires s == "1.2.3.4:80"
    ensures IpValidation(Some(s)) == None
  {
    ColonAndDotRefused(s, 7, 1);
  }

  /** "localhost" and "1.2.3" are neither dotted quads nor contain `:`: null. */
  lemma OtherFormsRefused(s: string)
    requires s == "localhost" || s == "1.2.3"
    ensures IpValidation(Some(s)) == None
  {
    if s == "localhost" {
      SplitWithout(s, '.');
    } else {
      assert s == "1" + ['.'] + ("2" + ['.'] + "3");
      SplitCons("1", '.', "2" + ['.'] + "3");
      SplitCons("2", '.', "3");
      SplitWithout("3", '.');
    }
    assert ':' !in s;
  }

  // ---------------------------------------------------------------------------
  // getIpStats: the address the statistics are counted for

  const UnknownIp := "unknown"

  /**
   * `validateIpAddress(first x-forwarded-for entry, trimmed) || "unknown"`: the validated
   * entry, or "unknown" when the header is missing, empty or its first entry is refused.
   */
  function DeriveIp(forwardedFor: Option<string>): (ip: string)
    ensures ip != "" && ',' !in ip
    ensures !IsTruthy(forwardedFor) ==> ip == UnknownIp
    ensures ip == UnknownIp
         || (IsTruthy(forwardedFor) && ip == Trim(FirstField(forwardedFor.value, ','))
             && IpValidation(Some(ip)) == Some(ip))
    ensures IsTruthy(forwardedFor) && IpValidation(Some(Trim(FirstField(forwardedFor.value, ',')))).Some?
            ==> ip == Trim(FirstField(forwardedFor.value, ','))
  {
    var candidateIp := if IsTruthy(forwardedFor) then Some(Trim(FirstField(forwardedFor.value, ','))) else None;
    var validatedIp := IpValidation(candidateIp);
    if IsTruthy(validatedIp) then
      var v := validatedIp.value;
      assert forall k :: 0 <= k < |v| ==> v[k] in FirstField(forwardedFor.value, ',');
      v
    else UnknownIp
  }

  /** A valid first entry is the address, whatever follows it. */
  lemma ValidFirstEntryKept(v: string)
    requires v == "1.2.3.4, 5.6.7.8"
    ensures DeriveIp(Some(v)) == "1.2.3.4"
  {
    var first, rest := SmallQuadEntry(v);
    SmallQuadAccepted(first);
    SmallQuadTrimmed(first);
    FirstEntryKept(first, rest);
  }

  /** "1.2.3.4, 5.6.7.8" is the entry "1.2.3.4", a comma and the rest. */
  lemma SmallQuadEntry(v: string) returns (first: string, rest: string)
    requires v == "1.2.3.4, 5.6.7.8"
    ensures v == first + [','] + rest && first == "1.2.3.4"
  {
    first, rest := v[..7], v[8..];
    assert v == v[..7] + [v[7]] + v[8..];
  }

  /** "1.2.3.4" has no comma and no space at either end. */
  lemma SmallQuadTrimmed(s: string)
    requires s == "1.2.3.4"
    ensures ',' !in s && Trim(s) == s
  {
    assert !IsJsSpace(s[0]) && !IsJsSpace(s[|s| - 1]);
    TrimOfTrimmed(s);
  }

  /** A trimmed, accepted entry before the first comma is the derived address. */
  lemma FirstEntryKept(first: string, rest: string)
    requires ',' !in first && Trim(first) == first
    requires IpValidation(Some(first)).Some?
    ensures DeriveIp(Some(first + [','] + rest)) == first
  {
    FirstFieldOfCons(first, rest);
  }

  /** "1.2.3.4" is accepted. */
  lemma SmallQuadAccepted(s: string)
    requires s == "1.2.3.4"
    ensures IpValidation(Some(s)) == Some(s)
  {
    var one, two, three, four := "1", "2", "3", "4";
    assert s == one + "." + (two + "." + (three + "." + four));
    assert DecimalValue(one) == 1 && DecimalValue(two) == 2;
    assert DecimalValue(three) == 3 && DecimalValue(four) == 4;
    DottedQuadAccepted(one, two, three, four);
  }

  /** A first entry that is refused gives "unknown", even when a later entry would pass. */
  lemma RefusedFirstEntry(v: string)
    requires v == "localhost, 1.2.3.4"
    ensures DeriveIp(Some(v)) == UnknownIp
  {
    var first := "localhost";
    assert v == first + [','] + " 1.2.3.4";
    SplitCons(first, ',', " 1.2.3.4");
    assert FirstField(v, ',') == first;
    TrimOfTrimmed(first);
    OtherFormsRefused(first);
  }
}
