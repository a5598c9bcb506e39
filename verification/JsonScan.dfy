/** The hand-written JSON scanner: whitespace, strings and numbers. */
module JsonScan {
  import opened Text

  predicate IsWhite(c: char) {
    c == ' ' || c == '\t' || c == '\r' || c == '\n'
  }

  /** What is left after leading whitespace. */
  function SkipWhite(s: string): (rest: string)
    ensures |rest| <= |s|
    ensures '\0' !in s ==> '\0' !in rest
  {
    if s != "" && IsWhite(s[0]) then SkipWhite(s[1..]) else s
  }

  /** Where the scan for the closing quote stops; a backslash takes the next byte with it. */
  function ScanEnd(s: string): nat
    decreases |s|
  {
    if s == "" || s[0] == '"' then 0
    else if s[0] == '\\' then 2 + ScanEnd(s[if |s| < 2 then |s| else 2..])
    else 1 + ScanEnd(s[1..])
  }

  /** The raw text up to the closing quote and what follows the quote. */
  function ScanString(s: string): (r: Option<(string, string)>)
    ensures r.Some? ==> |r.value.0| + |r.value.1| < |s|
    ensures r.Some? && '\0' !in s ==> '\0' !in r.value.0 && '\0' !in r.value.1
  {
    var e := ScanEnd(s);
    if e >= |s| then None else Some((s[..e], s[e + 1..]))
  }

  function SkipDigits(s: string): (rest: string)
    ensures |rest| <= |s|
    ensures rest != "" ==> !IsDigit(rest[0])
    ensures '\0' !in s ==> '\0' !in rest
  {
    if s != "" && IsDigit(s[0]) then SkipDigits(s[1..]) else s
  }

  function LeadingDigits(s: string): (digits: string)
    ensures AllDigits(digits)
    ensures digits + SkipDigits(s) == s
  {
    if s != "" && IsDigit(s[0]) then [s[0]] + LeadingDigits(s[1..]) else ""
  }

  predicate StartsWithDigit(s: string) {
    s != "" && IsDigit(s[0])
  }

  predicate StartsWith(s: string, c: char) {
    s != "" && s[0] == c
  }

  ghost predicate IsSuffix(rest: string, s: string) {
    |rest| <= |s| && s[|s| - |rest|..] == rest
  }

  lemma SuffixOfDigits(s: string)
    ensures IsSuffix(SkipDigits(s), s)
  {
    if s != "" && IsDigit(s[0]) {
      SuffixOfDigits(s[1..]);
    }
  }

  /** e or E and a sign, when both are there or only the letter. */
  function AfterExponentMark(s: string): (rest: string)
    requires s != ""
    ensures IsSuffix(rest, s[1..])
  {
    if StartsWith(s[1..], '+') || StartsWith(s[1..], '-') then s[2..] else s[1..]
  }

  predicate AtExponent(s: string) {
    StartsWith(s, 'e') || StartsWith(s, 'E')
  }

  function SkipFraction(s: string): (rest: string)
    ensures |rest| <= |s| && ('\0' !in s ==> '\0' !in rest)
  {
    if StartsWith(s, '.') then SkipDigits(s[1..]) else s
  }

  function SkipExponent(s: string): (rest: string)
    ensures |rest| <= |s| && ('\0' !in s ==> '\0' !in rest)
  {
    if AtExponent(s) then SkipDigits(AfterExponentMark(s)) else s
  }

  /** Number fields of the object itself: fraction and exponent are skipped even without digits. */
  function SkipTail(s: string): (rest: string)
    ensures |rest| <= |s| && ('\0' !in s ==> '\0' !in rest)
  {
    SkipExponent(SkipFraction(s))
  }

  function StrictDigits(s: string): (rest: Option<string>)
    ensures rest.Some? ==> IsSuffix(rest.value, s) && |rest.value| < |s|
  {
    SuffixOfDigits(s);
    if StartsWithDigit(s) then Some(SkipDigits(s)) else None
  }

  function StrictInteger(s: string): (rest: Option<string>)
    ensures rest.Some? ==> IsSuffix(rest.value, s) && |rest.value| < |s|
  {
    StrictDigits(if StartsWith(s, '-') then s[1..] else s)
  }

  function StrictFraction(s: string): (rest: Option<string>)
    ensures rest.Some? ==> IsSuffix(rest.value, s)
  {
    if StartsWith(s, '.') then StrictDigits(s[1..]) else Some(s)
  }

  function StrictExponent(s: string): (rest: Option<string>)
    ensures rest.Some? ==> IsSuffix(rest.value, s)
  {
    if AtExponent(s) then StrictDigits(AfterExponentMark(s)) else Some(s)
  }

  /** A number inside "fields": every digit group that is announced must be present. */
  function SkipNumber(s: string): (rest: Option<string>)
    ensures rest.Some? ==> |rest.value| < |s|
  {
    match StrictInteger(s)
    case None => None
    case Some(i) =>
      match StrictFraction(i)
      case None => None
      case Some(f) => StrictExponent(f)
  }

  lemma SuffixTransitive(a: string, b: string, c: string)
    requires IsSuffix(a, b) && IsSuffix(b, c)
    ensures IsSuffix(a, c)
  {
    assert c[|c| - |a|..] == b[|b| - |a|..];
  }

  lemma NumberSuffix(s: string)
    requires SkipNumber(s).Some?
    ensures IsSuffix(SkipNumber(s).value, s)
  {
    hide StrictInteger, StrictFraction, StrictExponent, IsSuffix;
    var i := StrictInteger(s).value;
    var f := StrictFraction(i).value;
    SuffixTransitive(f, i, s);
    SuffixTransitive(SkipNumber(s).value, f, s);
  }

  // ---------------------------------------------------------------- scanning loops

  method JsonSkipWhitespace(line: string, start: nat) returns (p: nat)
    requires start <= |line|
    ensures start <= p <= |line| && line[p..] == SkipWhite(line[start..])
  {
    p := start;
    while p < |line| && IsWhite(line[p])
      invariant start <= p <= |line|
      invariant SkipWhite(line[p..]) == SkipWhite(line[start..])
    {
      assert line[p..][1..] == line[p + 1..];
      p := p + 1;
    }
  }

  /** The closing-quote loop; the cursor may end one past the end of the line. */
  method JsonScanString(line: string, start: nat) returns (p: nat)
    requires start <= |line|
    ensures start <= p && p == start + ScanEnd(line[start..])
  {
    p := start;
    while p < |line| && line[p] != '"'
      invariant start <= p
      invariant p <= |line| ==> p + ScanEnd(line[p..]) == start + ScanEnd(line[start..])
      invariant p > |line| ==> p == start + ScanEnd(line[start..])
      decreases |line| - p
    {
      if line[p] == '\\' {
        if p + 2 <= |line| {
          assert line[p..][2..] == line[p + 2..];
        }
        p := p + 1;
      } else {
        assert line[p..][1..] == line[p + 1..];
      }
      p := p + 1;
    }
  }

  method JsonSkipDigits(line: string, start: nat) returns (p: nat)
    requires start <= |line|
    ensures start <= p <= |line| && line[p..] == SkipDigits(line[start..])
  {
    p := start;
    while p < |line| && IsDigit(line[p])
      invariant start <= p <= |line|
      invariant SkipDigits(line[p..]) == SkipDigits(line[start..])
    {
      assert line[p..][1..] == line[p + 1..];
      p := p + 1;
    }
  }

  /** Past e or E and an optional sign. */
  method JsonSkipExponentMark(line: string, start: nat) returns (p: nat)
    requires start < |line|
    ensures start < p <= |line| && line[p..] == AfterExponentMark(line[start..])
  {
    p := start + 1;
    assert line[start..][1..] == line[p..];
    if p < |line| && (line[p] == '+' || line[p] == '-') {
      assert line[start..][2..] == line[p + 1..];
      p := p + 1;
    }
  }

  method JsonSkipTail(line: string, start: nat) returns (p: nat)
    requires start <= |line|
    ensures start <= p <= |line| && line[p..] == SkipTail(line[start..])
  {
    hide SkipDigits, AfterExponentMark;
    p := start;
    if p < |line| && line[p] == '.' {
      assert line[p..][1..] == line[p + 1..];
      p := JsonSkipDigits(line, p + 1);
    }
    assert line[p..] == SkipFraction(line[start..]);
    hide SkipFraction;
    if p < |line| && (line[p] == 'e' || line[p] == 'E') {
      p := JsonSkipExponentMark(line, p);
      p := JsonSkipDigits(line, p);
    }
  }

  method JsonStrictDigits(line: string, start: nat) returns (p: Option<nat>)
    requires start <= |line|
    ensures p.Some? <==> StrictDigits(line[start..]).Some?
    ensures p.Some? ==> start < p.value <= |line| && line[p.value..] == StrictDigits(line[start..]).value
  {
    if start >= |line| || !IsDigit(line[start]) {
      return None;
    }
    var q := JsonSkipDigits(line, start);
    return Some(q);
  }

  method JsonStrictInteger(line: string, start: nat) returns (p: Option<nat>)
    requires start <= |line|
    ensures p.Some? <==> StrictInteger(line[start..]).Some?
    ensures p.Some? ==> start < p.value <= |line| && line[p.value..] == StrictInteger(line[start..]).value
  {
    hide StrictDigits;
    if start < |line| && line[start] == '-' {
      assert line[start..][1..] == line[start + 1..];
      p := JsonStrictDigits(line, start + 1);
    } else {
      p := JsonStrictDigits(line, start);
    }
  }

  method JsonStrictFraction(line: string, start: nat) returns (p: Option<nat>)
    requires start <= |line|
    ensures p.Some? <==> StrictFraction(line[start..]).Some?
    ensures p.Some? ==> start <= p.value <= |line| && line[p.value..] == StrictFraction(line[start..]).value
  {
    hide StrictDigits;
    if start < |line| && line[start] == '.' {
      assert line[start..][1..] == line[start + 1..];
      p := JsonStrictDigits(line, start + 1);
    } else {
      p := Some(start);
    }
  }

  method JsonStrictExponent(line: string, start: nat) returns (p: Option<nat>)
    requires start <= |line|
    ensures p.Some? <==> StrictExponent(line[start..]).Some?
    ensures p.Some? ==> start <= p.value <= |line| && line[p.value..] == StrictExponent(line[start..]).value
  {
    hide StrictDigits, AfterExponentMark;
    if start < |line| && (line[start] == 'e' || line[start] == 'E') {
      var q := JsonSkipExponentMark(line, start);
      p := JsonStrictDigits(line, q);
    } else {
      p := Some(start);
    }
  }

  method JsonSkipNumber(line: string, start: nat) returns (p: Option<nat>)
    requires start <= |line|
    ensures p.Some? <==> SkipNumber(line[start..]).Some?
    ensures p.Some? ==> start < p.value <= |line| && line[p.value..] == SkipNumber(line[start..]).value
  {
    hide StrictInteger, StrictFraction, StrictExponent;
    p := JsonStrictInteger(line, start);
    if p.Some? {
      p := JsonStrictFraction(line, p.value);
    }
    if p.Some? {
      p := JsonStrictExponent(line, p.value);
    }
  }

  // ---------------------------------------------------------------- texts that survive being quoted

  /** No unescaped quote inside and no backslash left dangling at the end. */
  predicate Balanced(t: string) {
    ScanEnd(t) == |t|
  }

  function Quoted(t: string): string {
    "\"" + t + "\""
  }

  lemma {:induction false} ScanEndPrefix(s: string)
    requires ScanEnd(s) < |s|
    ensures Balanced(s[..ScanEnd(s)]) && s[ScanEnd(s)] == '"'
    decreases |s|
  {
    var e := ScanEnd(s);
    var t := s[..e];
    if s[0] == '"' {
    } else if s[0] == '\\' {
      assert |s| >= 2;
      ScanEndPrefix(s[2..]);
      assert t[2..] == s[2..][..e - 2];
    } else {
      ScanEndPrefix(s[1..]);
      assert t[1..] == s[1..][..e - 1];
    }
  }

  lemma {:induction false} ScanEndQuoted(t: string, rest: string)
    requires Balanced(t)
    ensures ScanEnd(t + "\"" + rest) == |t|
    decreases |t|
  {
    var s := t + "\"" + rest;
    if t == "" {
    } else if t[0] == '\\' {
      assert |t| >= 2;
      assert s[2..] == t[2..] + "\"" + rest;
      ScanEndQuoted(t[2..], rest);
    } else {
      assert s[1..] == t[1..] + "\"" + rest;
      ScanEndQuoted(t[1..], rest);
    }
  }

  /** Scanning a quoted text gives the text back exactly when it is balanced. */
  lemma ScanQuotedIff(t: string, rest: string)
    ensures Balanced(t) <==> ScanString(t + "\"" + rest) == Some((t, rest))
  {
    var s := t + "\"" + rest;
    if Balanced(t) {
      ScanEndQuoted(t, rest);
      assert s[..|t|] == t && s[|t| + 1..] == rest;
    }
    if ScanString(s) == Some((t, rest)) {
      ScanEndPrefix(s);
    }
  }

  lemma ScannedIsBalanced(s: string)
    requires ScanString(s).Some?
    ensures Balanced(ScanString(s).value.0)
  {
    ScanEndPrefix(s);
  }

  lemma {:induction false} PlainIsBalanced(t: string)
    requires '"' !in t && '\\' !in t
    ensures Balanced(t)
    decreases |t|
  {
    if t != "" {
      PlainIsBalanced(t[1..]);
    }
  }

  lemma {:induction false} DigitsThen(d: string, rest: string)
    requires AllDigits(d) && !StartsWithDigit(rest)
    ensures SkipDigits(d + rest) == rest && LeadingDigits(d + rest) == d
    decreases |d|
  {
    var s := d + rest;
    if d == "" {
      assert s == rest;
    } else {
      assert s[1..] == d[1..] + rest;
      DigitsThen(d[1..], rest);
    }
  }
}
