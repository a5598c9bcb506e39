/** The cursor-advancing loops behind the JSON decoders. */
module JsonParser {
  import opened Text
  import opened FrameFormat
  import opened JsonScan
  import opened JsonObject

  method JsonParseString(line: string, start: nat) returns (r: Option<(string, nat)>)
    requires start <= |line|
    ensures r.None? ==> ScanString(line[start..]).None?
    ensures r.Some? ==> start < r.value.1 <= |line|
    ensures r.Some? ==> ScanString(line[start..]) == Some((r.value.0, line[r.value.1..]))
  {
    hide ScanEnd;
    var p := JsonScanString(line, start);
    if p >= |line| {
      return None;
    }
    assert line[start..][..p - start] == line[start..p] && line[start..][p - start + 1..] == line[p + 1..];
    return Some((line[start..p], p + 1));
  }

  method JsonKeyColon(line: string, start: nat) returns (r: Option<(string, nat)>)
    requires start <= |line|
    ensures r.None? ==> KeyColon(line[start..]).None?
    ensures r.Some? ==> start < r.value.1 < |line|
    ensures r.Some? ==> KeyColon(line[start..]) == Some((r.value.0, line[r.value.1..]))
  {
    hide ScanString, SkipWhite;
    if start >= |line| || line[start] != '"' {
      return None;
    }
    assert line[start..][1..] == line[start + 1..];
    var key := JsonParseString(line, start + 1);
    if key.None? {
      return None;
    }
    var p := JsonSkipWhitespace(line, key.value.1);
    if p >= |line| || line[p] != ':' {
      return None;
    }
    assert line[p..][1..] == line[p + 1..];
    p := JsonSkipWhitespace(line, p + 1);
    if p >= |line| {
      return None;
    }
    return Some((key.value.0, p));
  }

  /** After a value: true with the position after a comma, false with the position after the closing brace. */
  method JsonSeparator(line: string, start: nat) returns (r: Option<(bool, nat)>)
    requires start <= |line|
    ensures r.None? ==> Separator(line[start..]).Bad?
    ensures r.Some? ==> start < r.value.1 <= |line|
    ensures r.Some? ==>
              Separator(line[start..]) == if r.value.0 then More(line[r.value.1..]) else Done(line[r.value.1..])
  {
    hide SkipWhite;
    var p := JsonSkipWhitespace(line, start);
    if p >= |line| {
      return None;
    }
    assert line[p..][1..] == line[p + 1..];
    if line[p] == ',' {
      return Some((true, p + 1));
    } else if line[p] == '}' {
      return Some((false, p + 1));
    } else {
      return None;
    }
  }

  method JsonFieldValue(line: string, start: nat) returns (r: Option<(string, nat)>)
    requires start < |line|
    ensures r.None? ==> FieldValue(line[start..]).None?
    ensures r.Some? ==> start < r.value.1 <= |line|
    ensures r.Some? ==> FieldValue(line[start..]) == Some((r.value.0, line[r.value.1..]))
  {
    hide ScanString, SkipNumber;
    if line[start] == '"' {
      assert line[start..][1..] == line[start + 1..];
      r := JsonParseString(line, start + 1);
    } else {
      var p := JsonSkipNumber(line, start);
      if p.None? {
        return None;
      }
      assert line[start..][..p.value - start] == line[start..p.value];
      return Some((line[start..p.value], p.value));
    }
  }

  /** Room for one more field, and texts that are neither empty nor too long: the field joins the end, the rest stays. */
  method KvArrayAdd(fields: seq<Field>, key: string, value: string) returns (r: Option<seq<Field>>)
    ensures r.Some? <==>
              && 1 <= |key| < FRAME_KV_KEY_MAX && 1 <= |value| < FRAME_KV_VALUE_MAX && |fields| < FRAME_DATA_MAX_FIELDS
    ensures r.Some? ==> |r.value| == |fields| + 1 && fields <= r.value
    ensures r.Some? ==> r.value[|fields|].key == CString(key) && r.value[|fields|].value == CString(value)
  {
    if key == "" || |key| >= FRAME_KV_KEY_MAX || value == "" || |value| >= FRAME_KV_VALUE_MAX
       || |fields| >= FRAME_DATA_MAX_FIELDS {
      return None;
    }
    return Some(fields + [Field(CString(key), CString(value))]);
  }

  lemma AddedAtEnd(fields: seq<Field>, key: string, value: string, r: Option<seq<Field>>)
    requires r.Some? <==>
               && 1 <= |key| < FRAME_KV_KEY_MAX && 1 <= |value| < FRAME_KV_VALUE_MAX && |fields| < FRAME_DATA_MAX_FIELDS
    requires r.Some? ==>
               && |r.value| == |fields| + 1 && fields <= r.value
               && r.value[|fields|].key == CString(key) && r.value[|fields|].value == CString(value)
    ensures r == AddField(fields, key, value)
  {
    if r.Some? {
      assert r.value == fields + [r.value[|fields|]];
    }
  }

  /** The loop over the members of "fields". */
  method JsonParseFields(line: string, start: nat, initial: seq<Field>) returns (r: Option<(seq<Field>, nat)>)
    requires start <= |line|
    ensures r.None? ==> FieldMembers(line[start..], initial).None?
    ensures r.Some? ==> start < r.value.1 <= |line|
    ensures r.Some? ==> FieldMembers(line[start..], initial) == Some((r.value.0, line[r.value.1..]))
  {
    hide SkipWhite, KeyColon, FieldValue, AddField, Separator;
    var p, fields := start, initial;
    while true
      invariant start <= p <= |line|
      invariant FieldMembers(line[p..], fields) == FieldMembers(line[start..], initial)
      decreases |line| - p
    {
      p := JsonSkipWhitespace(line, p);
      if p < |line| && line[p] == '}' {
        assert line[p..][1..] == line[p + 1..];
        return Some((fields, p + 1));
      }
      var key := JsonKeyColon(line, p);
      if key.None? {
        return None;
      }
      var value := JsonFieldValue(line, key.value.1);
      if value.None? {
        return None;
      }
      var added := KvArrayAdd(fields, key.value.0, value.value.0);
      AddedAtEnd(fields, key.value.0, value.value.0, added);
      if added.None? {
        return None;
      }
      fields := added.value;
      var separator := JsonSeparator(line, value.value.1);
      if separator.None? {
        return None;
      }
      p := separator.value.1;
      if !separator.value.0 {
        return Some((fields, p));
      }
    }
  }

  /** The digit loop with the overflow guard. */
  method JsonUint32(line: string, start: nat) returns (r: Option<(nat, nat)>)
    requires start <= |line|
    ensures r.None? ==> Uint32Number(line[start..]).None?
    ensures r.Some? ==> start <= r.value.1 <= |line|
    ensures r.Some? ==> Uint32Number(line[start..]) == Some((r.value.0, line[r.value.1..]))
  {
    hide SkipTail;
    var p, value := start, 0;
    assert line[start..p] == "";
    while p < |line| && IsDigit(line[p])
      invariant start <= p <= |line| && AllDigits(line[start..p])
      invariant value == Value(line[start..p]) < UINT32_RANGE
    {
      var digit := DigitOf(line[p]);
      assert line[start..p + 1] == line[start..p] + [line[p]];
      assert line[start..p + 1][..p - start] == line[start..p];
      assert AllDigits(line[start..p + 1]);
      if value > (0xFFFF_FFFF - digit) / 10 {
        DigitRun(line, start, p + 1);
        return None;
      }
      value := value * 10 + digit;
      p := p + 1;
    }
    DigitRun(line, start, p);
    var q := JsonSkipTail(line, p);
    return Some((value, q));
  }

  /** A run of digits is a prefix of the leading digits, and all of them when no digit follows. */
  lemma {:induction false} DigitRun(line: string, start: nat, p: nat)
    requires start <= p <= |line| && AllDigits(line[start..p])
    ensures p - start <= |LeadingDigits(line[start..])|
    ensures Value(LeadingDigits(line[start..])) >= Value(line[start..p])
    ensures p == |line| || !IsDigit(line[p])
            ==> LeadingDigits(line[start..]) == line[start..p] && SkipDigits(line[start..]) == line[p..]
  {
    var s := line[start..];
    var digits := LeadingDigits(s);
    assert s[..p - start] == line[start..p] && s[p - start..] == line[p..];
    RunIsPrefix(s, p - start);
    PrefixValue(digits, p - start);
    if p == |line| || !IsDigit(line[p]) {
      DigitsThen(line[start..p], line[p..]);
      assert s == line[start..p] + line[p..];
    }
  }

  lemma {:induction false} RunIsPrefix(s: string, n: nat)
    requires n <= |s| && AllDigits(s[..n])
    ensures n <= |LeadingDigits(s)| && LeadingDigits(s)[..n] == s[..n]
    decreases n
  {
    if n > 0 {
      assert IsDigit(s[..n][0]);
      assert s[1..][..n - 1] == s[..n][1..];
      RunIsPrefix(s[1..], n - 1);
      assert LeadingDigits(s) == [s[0]] + LeadingDigits(s[1..]);
      assert LeadingDigits(s)[..n] == [s[0]] + LeadingDigits(s[1..])[..n - 1];
      assert s[..n] == [s[0]] + s[1..][..n - 1];
    }
  }

  lemma {:induction false} PrefixValue(digits: string, n: nat)
    requires n <= |digits| && AllDigits(digits)
    ensures Value(digits[..n]) <= Value(digits)
    decreases |digits|
  {
    if n == |digits| {
      assert digits[..n] == digits;
    } else {
      assert digits[..|digits| - 1][..n] == digits[..n];
      PrefixValue(digits[..|digits| - 1], n);
    }
  }

  method JsonX10Integer(line: string, start: nat) returns (r: Option<(nat, nat)>)
    requires start <= |line|
    ensures r.None? ==> GuardedInteger(0, line[start..]).None?
    ensures r.Some? ==> start <= r.value.1 <= |line| && line[r.value.1..] == SkipDigits(line[start..])
    ensures r.Some? ==> GuardedInteger(0, line[start..]) == Some(r.value.0)
  {
    var p: nat, intPart: nat := start, 0;
    while p < |line| && IsDigit(line[p])
      invariant start <= p <= |line|
      invariant SkipDigits(line[p..]) == SkipDigits(line[start..])
      invariant GuardedInteger(intPart, line[p..]) == GuardedInteger(0, line[start..])
    {
      assert line[p..][1..] == line[p + 1..];
      if intPart > X10_GUARD {
        return None;
      }
      intPart := intPart * 10 + DigitOf(line[p]);
      p := p + 1;
    }
    return Some((intPart, p));
  }

  /** The optional fraction of a scaled number. */
  method JsonX10Fraction(line: string, start: nat) returns (tenths: nat, p: nat)
    requires start <= |line|
    ensures tenths == Tenths(line[start..])
    ensures start <= p <= |line| && line[p..] == SkipFraction(line[start..])
  {
    hide SkipDigits;
    tenths, p := 0, start;
    if p < |line| && line[p] == '.' {
      assert line[p..][1..] == line[p + 1..];
      p := p + 1;
      if p < |line| && IsDigit(line[p]) {
        tenths := DigitOf(line[p]);
      }
      p := JsonSkipDigits(line, p);
    }
  }

  method JsonParseX10(line: string, start: nat) returns (r: Option<(int, nat)>)
    requires start <= |line|
    ensures r.None? ==> TimesTen(line[start..]).None?
    ensures r.Some? ==> start <= r.value.1 <= |line|
    ensures r.Some? ==> TimesTen(line[start..]) == Some((r.value.0, line[r.value.1..]))
  {
    hide SkipDigits, SkipFraction, Tenths, ToInt32, Signed, GuardedInteger;
    var p := start;
    var negative := p < |line| && line[p] == '-';
    if negative {
      assert line[p..][1..] == line[p + 1..];
      p := p + 1;
    }
    if p >= |line| || !IsDigit(line[p]) {
      return None;
    }
    var integer := JsonX10Integer(line, p);
    if integer.None? {
      return None;
    }
    var tenths, q := JsonX10Fraction(line, integer.value.1);
    return Some((ToInt32(Signed(negative, integer.value.0 * 10 + tenths)), q));
  }

  method JsonControlNumber(key: string, line: string, start: nat, obj: JsonObject)
      returns (r: Option<(JsonObject, nat)>)
    requires start < |line|
    ensures r.None? ==> ControlNumber(key, line[start..], obj).None?
    ensures r.Some? ==> start <= r.value.1 <= |line|
    ensures r.Some? ==> ControlNumber(key, line[start..], obj) == Some((r.value.0, line[r.value.1..]))
  {
    hide Uint32Number;
    var p := start;
    var negative := line[p] == '-';
    if negative {
      assert line[p..][1..] == line[p + 1..];
      p := p + 1;
    }
    if p >= |line| || !IsDigit(line[p]) {
      return None;
    }
    var number := JsonUint32(line, p);
    if number.None? {
      return None;
    }
    var (value, next) := number.value;
    if key == "seq" {
      if negative {
        return None;
      }
      return Some((obj.(sequence := Some(value)), next));
    } else if key == "led" {
      return Some((obj.(led := Some(ToInt32(Signed(negative, value)))), next));
    }
    return Some((obj, next));
  }

  method JsonDataNumber(key: string, line: string, start: nat, obj: JsonObject)
      returns (r: Option<(JsonObject, nat)>)
    requires start < |line|
    ensures r.None? ==> DataNumber(key, line[start..], obj).None?
    ensures r.Some? ==> start <= r.value.1 <= |line|
    ensures r.Some? ==> DataNumber(key, line[start..], obj) == Some((r.value.0, line[r.value.1..]))
  {
    hide Uint32Number, TimesTen, AddField, SkipDigits, SkipTail;
    if key == "temperature" || key == "humidity" {
      var x10 := JsonParseX10(line, start);
      if x10.None? {
        return None;
      }
      var fields := KvArrayAdd(obj.fields, if key == "temperature" then "T" else "H", SignedDec(x10.value.0));
      AddedAtEnd(obj.fields, if key == "temperature" then "T" else "H", SignedDec(x10.value.0), fields);
      if fields.None? {
        return None;
      }
      return Some((obj.(fields := fields.value), x10.value.1));
    } else if key == "seq" {
      if line[start] == '-' {
        return None;
      }
      var number := JsonUint32(line, start);
      if number.None? {
        return None;
      }
      return Some((obj.(sequence := Some(number.value.0)), number.value.1));
    }
    var p := start;
    if line[p] == '-' {
      assert line[p..][1..] == line[p + 1..];
      p := p + 1;
    }
    p := JsonSkipDigits(line, p);
    p := JsonSkipTail(line, p);
    return Some((obj, p));
  }

  method JsonMemberValue(mode: Mode, key: string, line: string, start: nat, obj: JsonObject)
      returns (r: Option<(JsonObject, nat)>)
    requires start < |line|
    ensures r.None? ==> MemberValue(mode, key, line[start..], obj).None?
    ensures r.Some? ==> start <= r.value.1 <= |line|
    ensures r.Some? ==> MemberValue(mode, key, line[start..], obj) == Some((r.value.0, line[r.value.1..]))
  {
    hide FieldMembers, ScanString, ControlString, DataString, ControlNumber, DataNumber;
    assert line[start..][1..] == line[start + 1..];
    if key == "fields" {
      if line[start] != '{' {
        return None;
      }
      var fields := JsonParseFields(line, start + 1, obj.fields);
      if fields.None? {
        return None;
      }
      return Some((obj.(fields := fields.value.0, foundFields := true), fields.value.1));
    } else if line[start] == '"' {
      var text := JsonParseString(line, start + 1);
      if text.None? {
        return None;
      }
      var next :=
        if mode == ControlMode then ControlString(key, text.value.0, obj) else DataString(key, text.value.0, obj);
      if next.None? {
        return None;
      }
      return Some((next.value, text.value.1));
    } else if mode == ControlMode {
      r := JsonControlNumber(key, line, start, obj);
    } else {
      r := JsonDataNumber(key, line, start, obj);
    }
  }

  /** json_parse_object, and the loop of message_json_decode_data; consumed counts the bytes of the object. */
  method JsonParseObject(mode: Mode, line: string) returns (r: Option<(JsonObject, nat)>)
    ensures r.None? ==> Parse(mode, line).None?
    ensures r.Some? ==> r.value.1 <= |line|
    ensures r.Some? ==> Parse(mode, line) == Some((r.value.0, line[r.value.1..]))
  {
    hide SkipWhite, KeyColon, MemberValue, Separator;
    assert line[0..] == line;
    var p := JsonSkipWhitespace(line, 0);
    if p >= |line| || line[p] != '{' {
      return None;
    }
    assert line[p..][1..] == line[p + 1..];
    p := p + 1;
    var obj := EMPTY_OBJECT;
    while true
      invariant p <= |line|
      invariant Parse(mode, line) == Members(mode, line[p..], obj)
      decreases |line| - p
    {
      p := JsonSkipWhitespace(line, p);
      if p < |line| && line[p] == '}' {
        assert line[p..][1..] == line[p + 1..];
        return Some((obj, p + 1));
      }
      var key := JsonKeyColon(line, p);
      if key.None? {
        return None;
      }
      var value := JsonMemberValue(mode, key.value.0, line, key.value.1, obj);
      if value.None? {
        return None;
      }
      obj := value.value.0;
      var separator := JsonSeparator(line, value.value.1);
      if separator.None? {
        return None;
      }
      p := separator.value.1;
      if !separator.value.0 {
        return Some((obj, p));
      }
    }
  }
}
