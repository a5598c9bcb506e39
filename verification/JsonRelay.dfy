/** Everything the scanner accepts can be printed again and read back unchanged. */
module JsonRelay {
  import opened Text
  import opened FrameFormat
  import opened FrameDecoder
  import opened JsonScan
  import opened JsonObject
  import opened JsonMessage
  import opened JsonRoundTrip

  // ---------------------------------------------------------------- what scanning yields

  predicate NumberChar(c: char) {
    IsDigit(c) || c == '.' || c == '-' || c == '+' || c == 'e' || c == 'E'
  }

  /** rest is what is left of s after number characters. */
  ghost predicate Consumed(s: string, rest: string) {
    IsSuffix(rest, s) && forall i :: 0 <= i < |s| - |rest| ==> NumberChar(s[i])
  }

  lemma ConsumedTransitive(a: string, b: string, c: string)
    requires Consumed(a, b) && Consumed(b, c)
    ensures Consumed(a, c)
  {
    SuffixTransitive(c, b, a);
    forall i | 0 <= i < |a| - |c|
      ensures NumberChar(a[i])
    {
      if i >= |a| - |b| {
        assert a[i] == b[i - (|a| - |b|)];
      }
    }
  }

  lemma {:induction false} DigitsConsumed(s: string)
    ensures Consumed(s, SkipDigits(s))
    decreases |s|
  {
    if s != "" && IsDigit(s[0]) {
      DigitsConsumed(s[1..]);
      assert Consumed(s, s[1..]);
      ConsumedTransitive(s, s[1..], SkipDigits(s));
    }
  }

  lemma OneConsumed(s: string)
    requires s != "" && NumberChar(s[0])
    ensures Consumed(s, s[1..])
  {
  }

  lemma IntegerConsumed(s: string)
    requires StrictInteger(s).Some?
    ensures Consumed(s, StrictInteger(s).value)
  {
    hide SkipDigits, Consumed;
    if StartsWith(s, '-') {
      OneConsumed(s);
      DigitsConsumed(s[1..]);
      ConsumedTransitive(s, s[1..], SkipDigits(s[1..]));
    } else {
      DigitsConsumed(s);
    }
  }

  lemma FractionConsumed(s: string)
    requires StrictFraction(s).Some?
    ensures Consumed(s, StrictFraction(s).value)
  {
    hide SkipDigits;
    if StartsWith(s, '.') {
      OneConsumed(s);
      DigitsConsumed(s[1..]);
      ConsumedTransitive(s, s[1..], SkipDigits(s[1..]));
    }
  }

  lemma ExponentConsumed(s: string)
    requires StrictExponent(s).Some?
    ensures Consumed(s, StrictExponent(s).value)
  {
    hide SkipDigits;
    if AtExponent(s) {
      var x := AfterExponentMark(s);
      OneConsumed(s);
      if StartsWith(s[1..], '+') || StartsWith(s[1..], '-') {
        OneConsumed(s[1..]);
        assert s[1..][1..] == s[2..];
        ConsumedTransitive(s, s[1..], s[2..]);
      }
      DigitsConsumed(x);
      ConsumedTransitive(s, x, SkipDigits(x));
    }
  }

  lemma NumberConsumed(s: string)
    requires SkipNumber(s).Some?
    ensures Consumed(s, SkipNumber(s).value)
  {
    hide StrictInteger, StrictFraction, StrictExponent, Consumed;
    var i := StrictInteger(s).value;
    var f := StrictFraction(i).value;
    IntegerConsumed(s);
    FractionConsumed(i);
    ExponentConsumed(f);
    ConsumedTransitive(s, i, f);
    ConsumedTransitive(s, f, SkipNumber(s).value);
  }

  lemma NumberTextBalanced(t: string)
    requires forall i :: 0 <= i < |t| ==> NumberChar(t[i])
    ensures Balanced(t)
  {
    PlainIsBalanced(t);
  }

  /** Every field value the scanner yields is balanced. */
  lemma FieldValueBalanced(s: string)
    requires s != "" && FieldValue(s).Some? && '\0' !in s
    ensures Balanced(FieldValue(s).value.0)
    ensures '\0' !in FieldValue(s).value.0 && '\0' !in FieldValue(s).value.1
  {
    hide ScanEnd, SkipNumber;
    if s[0] == '"' {
      ScannedIsBalanced(s[1..]);
    } else {
      NumberConsumed(s);
      var rest := SkipNumber(s).value;
      NumberTextBalanced(s[..|s| - |rest|]);
    }
  }

  lemma KeyBalanced(s: string)
    requires KeyColon(s).Some? && '\0' !in s
    ensures Balanced(KeyColon(s).value.0)
    ensures '\0' !in KeyColon(s).value.0 && '\0' !in KeyColon(s).value.1
  {
    hide ScanEnd;
    ScannedIsBalanced(s[1..]);
  }

  lemma SeparatorNoNul(s: string)
    requires !Separator(s).Bad? && '\0' !in s
    ensures '\0' !in Separator(s).rest
  {
  }

  // ---------------------------------------------------------------- parsed objects are printable

  lemma AddFieldSurvives(fields: seq<Field>, key: string, value: string)
    requires FieldsSurvive(fields) && Balanced(key) && Balanced(value) && '\0' !in key && '\0' !in value
    requires AddField(fields, key, value).Some?
    ensures FieldsSurvive(AddField(fields, key, value).value)
  {
    assert FieldSurvives(Field(key, value));
  }

  lemma {:induction false} FieldMembersSurvive(s: string, fields: seq<Field>)
    requires '\0' !in s && FieldsSurvive(fields) && FieldMembers(s, fields).Some?
    ensures FieldsSurvive(FieldMembers(s, fields).value.0) && '\0' !in FieldMembers(s, fields).value.1
    decreases |s|
  {
    hide KeyColon, FieldValue, AddField, Separator, SkipWhite, FieldsSurvive;
    var t := SkipWhite(s);
    if !StartsWith(t, '}') {
      KeyBalanced(t);
      var (key, v) := KeyColon(t).value;
      FieldValueBalanced(v);
      var (value, after) := FieldValue(v).value;
      AddFieldSurvives(fields, key, value);
      SeparatorNoNul(after);
      if Separator(after).More? {
        FieldMembersSurvive(Separator(after).rest, AddField(fields, key, value).value);
      }
    }
  }

  ghost predicate Printable(obj: JsonObject) {
    && (obj.node.Some? ==> Balanced(obj.node.value))
    && (obj.sender.Some? ==> Balanced(obj.sender.value))
    && (obj.sequence.Some? ==> obj.sequence.value < UINT32_RANGE)
    && (obj.error.Some? ==> obj.error.value != "" && Balanced(obj.error.value))
    && FieldsSurvive(obj.fields)
  }

  lemma NumberValueSurvives(key: string, s: string, obj: JsonObject, mode: Mode)
    requires s != "" && '\0' !in s && Printable(obj)
    requires var r := if mode == ControlMode then ControlNumber(key, s, obj) else DataNumber(key, s, obj); r.Some?
    ensures var r := if mode == ControlMode then ControlNumber(key, s, obj) else DataNumber(key, s, obj);
            Printable(r.value.0) && '\0' !in r.value.1
  {
    hide SkipTail, SkipDigits, AddField, Value, LeadingDigits, GuardedInteger, SignedDec, FieldsSurvive;
    if mode == DataMode && (key == "temperature" || key == "humidity") {
      var x10 := TimesTen(s).value.0;
      SignedDecBalanced(x10);
      AddFieldSurvives(obj.fields, if key == "temperature" then "T" else "H", SignedDec(x10));
    }
  }

  lemma SignedDecBalanced(n: int)
    ensures Balanced(SignedDec(n)) && '\0' !in SignedDec(n) && Balanced("T") && Balanced("H")
  {
    assert !IsDigit('\0') && !IsDigit('"') && !IsDigit('\\');
    PlainIsBalanced(SignedDec(n));
    PlainIsBalanced("T");
    PlainIsBalanced("H");
  }

  lemma StringValueSurvives(mode: Mode, key: string, value: string, obj: JsonObject)
    requires Balanced(value) && '\0' !in value && Printable(obj)
    requires (if mode == ControlMode then ControlString(key, value, obj) else DataString(key, value, obj)).Some?
    ensures Printable((if mode == ControlMode then ControlString(key, value, obj) else DataString(key, value, obj)).value)
  {
    hide Balanced, FieldsSurvive, CString, Atoi;
  }

  lemma MemberValueSurvives(mode: Mode, key: string, s: string, obj: JsonObject)
    requires s != "" && '\0' !in s && Printable(obj) && MemberValue(mode, key, s, obj).Some?
    ensures Printable(MemberValue(mode, key, s, obj).value.0) && '\0' !in MemberValue(mode, key, s, obj).value.1
  {
    hide FieldMembers, ScanEnd, ControlString, DataString, ControlNumber, DataNumber, FieldsSurvive, Balanced;
    if key == "fields" {
      FieldMembersSurvive(s[1..], obj.fields);
    } else if s[0] == '"' {
      ScannedIsBalanced(s[1..]);
      StringValueSurvives(mode, key, ScanString(s[1..]).value.0, obj);
    } else {
      NumberValueSurvives(key, s, obj, mode);
    }
  }

  lemma {:induction false} MembersSurvive(mode: Mode, s: string, obj: JsonObject)
    requires '\0' !in s && Printable(obj) && Members(mode, s, obj).Some?
    ensures Printable(Members(mode, s, obj).value.0)
    decreases |s|
  {
    hide KeyColon, MemberValue, Separator, SkipWhite, Printable;
    var t := SkipWhite(s);
    if !StartsWith(t, '}') {
      KeyBalanced(t);
      var (key, v) := KeyColon(t).value;
      MemberValueSurvives(mode, key, v, obj);
      var (next, after) := MemberValue(mode, key, v, obj).value;
      SeparatorNoNul(after);
      if Separator(after).More? {
        MembersSurvive(mode, Separator(after).rest, next);
      }
    }
  }

  lemma ParsedIsPrintable(mode: Mode, line: string)
    requires '\0' !in line && Parse(mode, line).Some?
    ensures Printable(Parse(mode, line).value.0)
  {
    assert '\0' !in SkipWhite(line)[1..];
    MembersSurvive(mode, SkipWhite(line)[1..], EMPTY_OBJECT);
  }

  // ---------------------------------------------------------------- sequences are 32 bits wide, on any line

  ghost predicate SequenceFits(obj: JsonObject) {
    obj.sequence.Some? ==> obj.sequence.value < UINT32_RANGE
  }

  lemma MemberValueFits(mode: Mode, key: string, s: string, obj: JsonObject)
    requires s != "" && SequenceFits(obj) && MemberValue(mode, key, s, obj).Some?
    ensures SequenceFits(MemberValue(mode, key, s, obj).value.0)
  {
    hide FieldMembers, ScanString, SkipTail, SkipDigits, AddField, Value, LeadingDigits, GuardedInteger, SignedDec, CString,
      Atoi, Uint32Number, TimesTen;
  }

  lemma {:induction false} MembersFit(mode: Mode, s: string, obj: JsonObject)
    requires SequenceFits(obj) && Members(mode, s, obj).Some?
    ensures SequenceFits(Members(mode, s, obj).value.0)
    decreases |s|
  {
    hide KeyColon, MemberValue, Separator, SkipWhite, SequenceFits;
    var t := SkipWhite(s);
    if !StartsWith(t, '}') {
      var (key, v) := KeyColon(t).value;
      MemberValueFits(mode, key, v, obj);
      var (next, after) := MemberValue(mode, key, v, obj).value;
      if Separator(after).More? {
        MembersFit(mode, Separator(after).rest, next);
      }
    }
  }

  lemma DecodedSequenceFits(line: string)
    requires DecodeCommandLine(line).Accepted?
    ensures DecodeCommandLine(line).message.sequence < UINT32_RANGE
  {
    hide Members, ObjectFields;
    MembersFit(ControlMode, SkipWhite(line)[1..], EMPTY_OBJECT);
  }

  lemma ObjectFieldsSurvive(obj: JsonObject)
    requires Printable(obj)
    ensures FieldsSurvive(ObjectFields(obj))
  {
    if !obj.foundFields && obj.led.Some? {
      var f := LedField(obj.led.value);
      SignedDecBalanced(obj.led.value);
      PlainIsBalanced("LED");
      assert FieldSurvives(f);
    }
  }

  // ---------------------------------------------------------------- exactly what survives

  ghost predicate KvSurvives(m: KvMessage) {
    Balanced(m.id) && m.sequence < UINT32_RANGE && FieldsSurvive(m.fields)
  }

  ghost predicate CommandSurvives(c: Command) {
    Balanced(c.target) && Balanced(c.sender) && c.sequence < UINT32_RANGE && FieldsSurvive(c.fields)
  }

  ghost predicate NackSurvives(m: NackMessage) {
    Balanced(m.nodeId) && m.sequence < UINT32_RANGE && m.error != "" && Balanced(m.error)
  }

  /** Messages that come out of a NUL-free line are of the kind that survives. */
  lemma DecodedDataSurvives(line: string)
    requires '\0' !in line && DecodeDataLine(line).Accepted?
    ensures KvSurvives(DecodeDataLine(line).message)
  {
    hide Parse, Balanced, FieldsSurvive;
    ParsedIsPrintable(DataMode, line);
  }

  lemma DecodedKvSurvives(kind: string, line: string)
    requires '\0' !in line && DecodeControlKv(kind, line).Accepted?
    ensures KvSurvives(DecodeControlKv(kind, line).message)
  {
    hide Parse, Balanced, FieldsSurvive, ObjectFields;
    ParsedIsPrintable(ControlMode, line);
    ObjectFieldsSurvive(Parse(ControlMode, line).value.0);
  }

  lemma DecodedCommandSurvives(line: string)
    requires '\0' !in line && DecodeCommandLine(line).Accepted?
    ensures CommandSurvives(DecodeCommandLine(line).message)
  {
    hide Parse, Balanced, FieldsSurvive, ObjectFields;
    ParsedIsPrintable(ControlMode, line);
    ObjectFieldsSurvive(Parse(ControlMode, line).value.0);
  }

  lemma DecodedNackSurvives(line: string)
    requires '\0' !in line && DecodeNackLine(line).Accepted?
    ensures NackSurvives(DecodeNackLine(line).message)
  {
    hide Parse, Balanced, FieldsSurvive;
    ParsedIsPrintable(ControlMode, line);
  }

  lemma KvNoNul(kind: string, m: KvMessage)
    requires '\0' !in kind
    ensures '\0' !in KvObject(kind, m)
  {
    hide Dec, FieldsJson;
    DecNoNul(m.sequence);
    FieldsJsonNoNul(m.fields);
  }

  lemma {:induction false} FieldsJsonNoNul(fields: seq<Field>)
    ensures '\0' !in FieldsJson(fields)
    decreases |fields|
  {
    if |fields| > 1 {
      FieldsJsonNoNul(fields[1..]);
    }
  }

  lemma DecNoNul(n: nat)
    ensures '\0' !in Dec(n)
  {
    assert !IsDigit('\0');
  }

  /** A DATA message is read back, exactly its own bytes consumed, if and only if its texts are balanced. */
  lemma DataRoundTripIff(m: KvMessage, rest: string)
    requires '\0' !in rest
    ensures DecodeDataLine(KvObject("DATA", m) + rest) == Accepted(m, |KvObject("DATA", m)|) <==> KvSurvives(m)
  {
    hide Parse, Balanced, FieldsSurvive, Dec, FieldsJson;
    var line := KvObject("DATA", m) + rest;
    DecNoNul(m.sequence);
    FieldsJsonNoNul(m.fields);
    assert '\0' !in line;
    if KvSurvives(m) {
      KindsAreBalanced();
      KvParses(DataMode, "DATA", m, rest);
    }
    if DecodeDataLine(line).Accepted? {
      DecodedDataSurvives(line);
    }
  }

  lemma KindsAreBalanced()
    ensures Balanced("DATA") && Balanced("ACK")
  {
    PlainIsBalanced("DATA");
    PlainIsBalanced("ACK");
  }

  lemma AckRoundTripIff(m: KvMessage, rest: string)
    requires '\0' !in rest
    ensures DecodeControlKv("ACK", KvObject("ACK", m) + rest) == Accepted(m, |KvObject("ACK", m)|) <==> KvSurvives(m)
  {
    hide Parse, Balanced, FieldsSurvive, Dec, FieldsJson;
    var line := KvObject("ACK", m) + rest;
    DecNoNul(m.sequence);
    FieldsJsonNoNul(m.fields);
    assert '\0' !in line;
    if KvSurvives(m) {
      KindsAreBalanced();
      KvParses(ControlMode, "ACK", m, rest);
    }
    if DecodeControlKv("ACK", line).Accepted? {
      DecodedKvSurvives("ACK", line);
    }
  }

  lemma CommandRoundTripIff(c: Command, rest: string)
    requires '\0' !in rest
    ensures DecodeCommandLine(CommandObject(c) + rest) == Accepted(c, |CommandObject(c)|) <==> CommandSurvives(c)
  {
    hide Parse, Balanced, FieldsSurvive, Dec, FieldsJson;
    var line := CommandObject(c) + rest;
    DecNoNul(c.sequence);
    FieldsJsonNoNul(c.fields);
    assert '\0' !in line;
    if CommandSurvives(c) {
      CommandParses(c, rest);
    }
    if DecodeCommandLine(line).Accepted? {
      DecodedCommandSurvives(line);
    }
  }

  lemma NackRoundTripIff(m: NackMessage, rest: string)
    requires '\0' !in rest
    ensures DecodeNackLine(NackObject(m) + rest) == Accepted(m, |NackObject(m)|) <==> NackSurvives(m)
  {
    hide Parse, Balanced, Dec;
    var line := NackObject(m) + rest;
    DecNoNul(m.sequence);
    assert '\0' !in line;
    if NackSurvives(m) {
      NackParses(m, rest);
    }
    if DecodeNackLine(line).Accepted? {
      DecodedNackSurvives(line);
    }
  }
}
