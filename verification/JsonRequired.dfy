/** Which members each decoder demands: objects with any of them left out, and the older led member. */
module JsonRequired {
  import opened Text
  import opened FrameFormat
  import opened FrameDecoder
  import opened JsonScan
  import opened JsonObject
  import opened JsonMessage
  import opened JsonRoundTrip

  /** The members an object has, each of them optional. */
  datatype Given = Given(
    node: Option<NodeId>, sender: Option<NodeId>, sequence: Option<nat>, kind: Option<string>, error: Option<NodeId>)

  ghost predicate Readable(g: Given) {
    && (g.node.Some? ==> Balanced(g.node.value))
    && (g.sender.Some? ==> Balanced(g.sender.value))
    && (g.sequence.Some? ==> g.sequence.value < UINT32_RANGE)
    && (g.kind.Some? ==> Balanced(g.kind.value) && |g.kind.value| < TYPE_SIZE && '\0' !in g.kind.value)
    && (g.error.Some? ==> g.error.value != "" && Balanced(g.error.value))
  }

  function TextMember(key: string, value: Option<string>): string {
    match value
    case None => ""
    case Some(t) => Member(key, Quoted(t)) + ","
  }

  function NumberMember(key: string, value: Option<nat>): string {
    match value
    case None => ""
    case Some(n) => Member(key, Dec(n)) + ","
  }

  /** The object with the given members, each followed by a comma, and what comes after it on the line. */
  function GivenText(g: Given, rest: string): string {
    "{" + (TextMember("node", g.node) + (TextMember("sender", g.sender) + (NumberMember("seq", g.sequence)
    + (TextMember("type", g.kind) + (TextMember("error", g.error) + ("}" + rest))))))
  }

  lemma ClosingBrace(mode: Mode, rest: string, obj: JsonObject)
    ensures Members(mode, "}" + rest, obj) == Some((obj, rest))
  {
    NoWhite("}" + rest);
    assert ("}" + rest)[1..] == rest;
  }

  lemma TextRead(mode: Mode, key: string, t: string, rest: string, obj: JsonObject, next: JsonObject)
    requires key in {"node", "sender", "type", "error"} && Balanced(t)
    requires (if mode == ControlMode then ControlString(key, t, obj) else DataString(key, t, obj)) == Some(next)
    ensures Members(mode, TextMember(key, Some(t)) + rest, obj) == Members(mode, rest, next)
  {
    hide Members, MemberValue, Member, Quoted, ControlString, DataString;
    KeysAreBalanced();
    assert Balanced(key);
    TextMemberValue(mode, key, t, "," + rest, obj);
    QuotedValue(t);
    assert Quoted(t) + "," + rest == Quoted(t) + ("," + rest);
    MemberRead(mode, key, Quoted(t), rest, obj, next);
    assert TextMember(key, Some(t)) + rest == Member(key, Quoted(t)) + "," + rest;
  }

  lemma NodeGiven(mode: Mode, g: Given, rest: string, obj: JsonObject)
    requires Readable(g) && obj.node == None
    ensures Members(mode, TextMember("node", g.node) + rest, obj) == Members(mode, rest, obj.(node := g.node))
  {
    hide Members, Balanced;
    if g.node.Some? {
      TextRead(mode, "node", g.node.value, rest, obj, obj.(node := g.node));
    } else {
      assert "" + rest == rest;
    }
  }

  /** The sender and the error are read by the control decoders and passed over by the DATA decoder. */
  lemma SenderGiven(mode: Mode, g: Given, rest: string, obj: JsonObject)
    requires Readable(g) && obj.sender == None
    ensures Members(mode, TextMember("sender", g.sender) + rest, obj)
            == Members(mode, rest, if mode == ControlMode then obj.(sender := g.sender) else obj)
  {
    hide Members, Balanced;
    if g.sender.Some? {
      TextRead(mode, "sender", g.sender.value, rest, obj, if mode == ControlMode then obj.(sender := g.sender) else obj);
    } else {
      assert "" + rest == rest;
    }
  }

  lemma ErrorGiven(mode: Mode, g: Given, rest: string, obj: JsonObject)
    requires Readable(g) && obj.error == None
    ensures Members(mode, TextMember("error", g.error) + rest, obj)
            == Members(mode, rest, if mode == ControlMode then obj.(error := g.error) else obj)
  {
    hide Members, Balanced;
    if g.error.Some? {
      TextRead(mode, "error", g.error.value, rest, obj, if mode == ControlMode then obj.(error := g.error) else obj);
    } else {
      assert "" + rest == rest;
    }
  }

  lemma SequenceGiven(mode: Mode, g: Given, rest: string, obj: JsonObject)
    requires Readable(g) && obj.sequence == None
    ensures Members(mode, NumberMember("seq", g.sequence) + rest, obj) == Members(mode, rest, obj.(sequence := g.sequence))
  {
    hide Members, Dec, Member;
    if g.sequence.Some? {
      SequenceRead(mode, g.sequence.value, rest, obj);
      assert NumberMember("seq", g.sequence) + rest == Member("seq", Dec(g.sequence.value)) + "," + rest;
    } else {
      assert "" + rest == rest;
    }
  }

  lemma TypeGiven(mode: Mode, g: Given, rest: string, obj: JsonObject)
    requires Readable(g) && obj.kind == None
    requires mode == DataMode && g.kind.Some? ==> g.kind.value == "DATA"
    ensures Members(mode, TextMember("type", g.kind) + rest, obj) == Members(mode, rest, obj.(kind := g.kind))
  {
    hide Members, Balanced;
    if g.kind.Some? {
      TextRead(mode, "type", g.kind.value, rest, obj, obj.(kind := g.kind));
    } else {
      assert "" + rest == rest;
    }
  }

  /** The DATA decoder refuses any other type at once. */
  lemma OtherTypeRefused(g: Given, rest: string, obj: JsonObject)
    requires Readable(g) && g.kind.Some? && g.kind.value != "DATA"
    ensures Members(DataMode, TextMember("type", g.kind) + rest, obj) == None
  {
    hide Members, MemberValue, Member, Quoted, Balanced, KeyColon, Separator;
    var t := g.kind.value;
    KeysAreBalanced();
    TextMemberValue(DataMode, "type", t, "," + rest, obj);
    QuotedValue(t);
    assert Quoted(t) + "," + rest == Quoted(t) + ("," + rest);
    assert TextMember("type", g.kind) + rest == Member("type", Quoted(t)) + "," + rest;
    MemberRefused(DataMode, "type", Quoted(t), rest, obj);
  }

  lemma MemberRefused(mode: Mode, key: string, value: string, rest: string, obj: JsonObject)
    requires Balanced(key) && value != "" && !IsWhite(value[0])
    requires MemberValue(mode, key, value + "," + rest, obj) == None
    ensures Members(mode, Member(key, value) + "," + rest, obj) == None
  {
    hide KeyColon, MemberValue, SkipWhite, Quoted;
    var s := Member(key, value) + "," + rest;
    assert s == Member(key, value + "," + rest);
    KeyColonRead(key, value + "," + rest);
    MemberStartsWithQuote(key, value + "," + rest);
  }

  /** What the scanner has collected at the end. */
  lemma GivenParses(mode: Mode, g: Given, rest: string)
    requires Readable(g)
    ensures Parse(mode, GivenText(g, rest))
            == if mode == ControlMode then
                 Some((EMPTY_OBJECT.(node := g.node, sender := g.sender, sequence := g.sequence, kind := g.kind, error := g.error),
                       rest))
               else if g.kind.Some? && g.kind.value != "DATA" then None
               else Some((EMPTY_OBJECT.(node := g.node, sequence := g.sequence, kind := g.kind), rest))
  {
    hide Parse, Members, TextMember, NumberMember, Readable;
    var t5 := "}" + rest;
    var t4 := TextMember("error", g.error) + t5;
    var t3 := TextMember("type", g.kind) + t4;
    var t2 := NumberMember("seq", g.sequence) + t3;
    var t1 := TextMember("sender", g.sender) + t2;
    var t0 := TextMember("node", g.node) + t1;
    Opens(mode, t0);
    var o1 := EMPTY_OBJECT.(node := g.node);
    NodeGiven(mode, g, t1, EMPTY_OBJECT);
    var o2 := if mode == ControlMode then o1.(sender := g.sender) else o1;
    SenderGiven(mode, g, t2, o1);
    var o3 := o2.(sequence := g.sequence);
    SequenceGiven(mode, g, t3, o2);
    if mode == DataMode && g.kind.Some? && g.kind.value != "DATA" {
      OtherTypeRefused(g, t4, o3);
    } else {
      var o4 := o3.(kind := g.kind);
      TypeGiven(mode, g, t4, o3);
      ErrorGiven(mode, g, t5, o4);
      ClosingBrace(mode, rest, if mode == ControlMode then o4.(error := g.error) else o4);
    }
  }

  /**
   * Each decoder accepts such an object exactly when it has the members the decoder demands, with the right type; the
   * message then holds them, no fields, and everything up to the closing brace is consumed.
   */
  lemma RequiredMembersIff(g: Given, rest: string)
    requires Readable(g)
    ensures var line := GivenText(g, rest);
            DecodeDataLine(line)
            == if g.node.Some? && g.sequence.Some? && g.kind == Some("DATA")
               then Accepted(KvMessage(g.node.value, g.sequence.value, []), |line| - |rest|) else Rejected
    ensures var line := GivenText(g, rest);
            DecodeControlKv("ACK", line)
            == if g.node.Some? && g.sequence.Some? && g.kind == Some("ACK")
               then Accepted(KvMessage(g.node.value, g.sequence.value, []), |line| - |rest|) else Rejected
    ensures var line := GivenText(g, rest);
            DecodeCommandLine(line)
            == if g.node.Some? && g.sender.Some? && g.sequence.Some? && g.kind == Some("CMD")
               then Accepted(Command(g.node.value, g.sender.value, g.sequence.value, []), |line| - |rest|) else Rejected
    ensures var line := GivenText(g, rest);
            DecodeNackLine(line)
            == if g.node.Some? && g.sequence.Some? && g.error.Some? && g.kind == Some("NACK")
               then Accepted(NackMessage(g.node.value, g.sequence.value, g.error.value), |line| - |rest|) else Rejected
  {
    hide Parse, GivenText, Readable;
    GivenParses(ControlMode, g, rest);
    GivenParses(DataMode, g, rest);
  }

  // ---------------------------------------------------------------- the led member

  /** A sign and digits whose value fits an int. */
  ghost predicate IsLed(negative: bool, digits: string) {
    digits != "" && AllDigits(digits) && Value(digits) < 0x8000_0000
  }

  function LedText(negative: bool, digits: string): string {
    (if negative then "-" else "") + digits
  }

  function LedNumber(negative: bool, digits: string): int
    requires AllDigits(digits)
  {
    var n: int := Value(digits);
    if negative then -n else n
  }

  lemma LedStarts(negative: bool, digits: string, rest: string)
    requires IsLed(negative, digits)
    ensures var s := LedText(negative, digits) + rest;
            && s != "" && s[0] != '"' && s[0] != '{' && !IsWhite(s[0]) && !IsDigit('-')
            && (s[0] == '-') == negative
            && (if negative then s[1..] else s) == digits + rest
            && StartsWithDigit(digits + rest)
  {
    var s := LedText(negative, digits) + rest;
    assert s[0] == if negative then '-' else digits[0];
    assert IsDigit(digits[0]) && (digits + rest)[0] == digits[0];
  }

  lemma LedValue(negative: bool, digits: string, rest: string, obj: JsonObject)
    requires IsLed(negative, digits)
    ensures MemberValue(ControlMode, "led", LedText(negative, digits) + "}" + rest, obj)
            == Some((obj.(led := Some(LedNumber(negative, digits))), "}" + rest))
    ensures MemberValue(ControlMode, "led", LedText(negative, digits) + "," + rest, obj)
            == Some((obj.(led := Some(LedNumber(negative, digits))), "," + rest))
  {
    assert LedText(negative, digits) + "}" + rest == LedText(negative, digits) + ("}" + rest);
    assert LedText(negative, digits) + "," + rest == LedText(negative, digits) + ("," + rest);
    BraceEndsNumber(rest);
    CommaEndsNumber(rest);
    LedValueBefore(negative, digits, "}" + rest, obj);
    LedValueBefore(negative, digits, "," + rest, obj);
  }

  lemma LedValueBefore(negative: bool, digits: string, more: string, obj: JsonObject)
    requires IsLed(negative, digits) && SkipTail(more) == more && !StartsWithDigit(more)
    ensures MemberValue(ControlMode, "led", LedText(negative, digits) + more, obj)
            == Some((obj.(led := Some(LedNumber(negative, digits))), more))
  {
    hide Value, SkipTail, SkipDigits, LeadingDigits, LedText;
    LedStarts(negative, digits, more);
    DigitsThen(digits, more);
    assert Uint32Number(digits + more) == Some((Value(digits), more));
    hide Uint32Number;
    SmallIsItself(LedNumber(negative, digits));
  }

  lemma BraceEndsNumber(rest: string)
    ensures SkipTail("}" + rest) == "}" + rest && !StartsWithDigit("}" + rest)
  {
  }

  lemma SmallIsItself(n: int)
    requires -0x8000_0000 < n < 0x8000_0000
    ensures ToInt32(n) == n
  {
  }

  /** {"node":"ID","sender":"ID","seq":N,"type":"CMD","led":L}: a command of the older format. */
  function LedCommand(target: string, sender: string, n: nat, led: string, rest: string): string {
    "{" + (Member("node", Quoted(target)) + "," + (Member("sender", Quoted(sender)) + "," + (Member("seq", Dec(n)) + ","
    + (Member("type", Quoted("CMD")) + "," + (Member("led", led) + "}" + rest)))))
  }

  /** It is decoded as a command with the single field LED. */
  lemma LedCommandDecodes(target: NodeId, sender: NodeId, n: nat, negative: bool, digits: string, rest: string)
    requires Balanced(target) && Balanced(sender) && n < UINT32_RANGE && IsLed(negative, digits)
    ensures var line := LedCommand(target, sender, n, LedText(negative, digits), rest);
            var d := DecodeCommandLine(line);
            && d.Accepted? && d.consumed == |line| - |rest|
            && d.message.target == target && d.message.sender == sender && d.message.sequence == n
            && |d.message.fields| == 1 && d.message.fields[0].key == "LED"
            && d.message.fields[0].value == SignedDec(LedNumber(negative, digits))
  {
    hide Parse, Members, MemberValue, Member, Quoted, Dec, Balanced, LedText, Value, SignedDec;
    PlainIsBalanced("CMD");
    PlainIsBalanced("led");
    var led := LedText(negative, digits);
    var t5 := Member("led", led) + "}" + rest;
    var t4 := Member("type", Quoted("CMD")) + "," + t5;
    var t3 := Member("seq", Dec(n)) + "," + t4;
    var t2 := Member("sender", Quoted(sender)) + "," + t3;
    var t1 := Member("node", Quoted(target)) + "," + t2;
    Opens(ControlMode, t1);
    var o1 := EMPTY_OBJECT.(node := Some(target));
    var o2 := o1.(sender := Some(sender));
    var o3 := o2.(sequence := Some(n));
    var o4 := o3.(kind := Some("CMD"));
    NodeRead(ControlMode, target, t2, EMPTY_OBJECT);
    SenderRead(sender, t3, o1);
    SequenceRead(ControlMode, n, t4, o2);
    TypeRead(ControlMode, "CMD", t5, o3);
    LedValue(negative, digits, rest, o4);
    LedStarts(negative, digits, "");
    assert led + "" == led;
    LastMemberRead(ControlMode, "led", led, rest, o4, o4.(led := Some(LedNumber(negative, digits))));
  }

  /** Beside a fields object the led member does not count, in whatever order they stand. */
  lemma FieldsBeatLed(target: NodeId, sender: NodeId, n: nat, negative: bool, digits: string, fields: seq<Field>, rest: string)
    requires Balanced(target) && Balanced(sender) && n < UINT32_RANGE && IsLed(negative, digits) && FieldsSurvive(fields)
    ensures var led := Member("led", LedText(negative, digits)) + ",";
            var line := "{" + (led + (Member("node", Quoted(target)) + "," + (Member("sender", Quoted(sender)) + ","
                        + TailText(n, "CMD", fields, rest))));
            DecodeCommandLine(line) == Accepted(Command(target, sender, n, fields), |line| - |rest|)
  {
    hide Parse, Members, MemberValue, Member, Quoted, Dec, Balanced, LedText, LedNumber, Value, FieldsSurvive, TailText;
    PlainIsBalanced("CMD");
    PlainIsBalanced("led");
    var led := LedText(negative, digits);
    var t3 := TailText(n, "CMD", fields, rest);
    var t2 := Member("sender", Quoted(sender)) + "," + t3;
    var t1 := Member("node", Quoted(target)) + "," + t2;
    var t0 := Member("led", led) + "," + t1;
    assert Member("led", led) + "," + t1 == (Member("led", led) + ",") + t1;
    Opens(ControlMode, t0);
    LedInRange(negative, digits);
    var o0 := EMPTY_OBJECT.(led := Some(LedNumber(negative, digits)));
    LedValue(negative, digits, t1, EMPTY_OBJECT);
    LedStarts(negative, digits, "");
    assert led + "" == led;
    MemberRead(ControlMode, "led", led, t1, EMPTY_OBJECT, o0);
    var o1 := o0.(node := Some(target));
    NodeRead(ControlMode, target, t2, o0);
    SenderRead(sender, t3, o1);
    TailParses(ControlMode, n, "CMD", fields, rest, o1.(sender := Some(sender)));
  }

  lemma LedInRange(negative: bool, digits: string)
    requires IsLed(negative, digits)
    ensures -0x8000_0000 <= LedNumber(negative, digits) < 0x8000_0000
  {
  }

  // ---------------------------------------------------------------- members that are passed over

  ghost predicate Unknown(key: string) {
    && Balanced(key)
    && key !in {"node", "sender", "seq", "type", "fields", "led", "error", "temperature", "humidity"}
  }

  lemma SkippedFirst(mode: Mode, key: string, value: string, body: string)
    requires Balanced(key) && value != "" && !IsWhite(value[0])
    requires MemberValue(mode, key, value + "," + body, EMPTY_OBJECT) == Some((EMPTY_OBJECT, "," + body))
    ensures Parse(mode, "{" + (Member(key, value) + "," + body)) == Parse(mode, "{" + body)
  {
    hide Parse, Members, MemberValue, Member;
    Opens(mode, Member(key, value) + "," + body);
    Opens(mode, body);
    MemberRead(mode, key, value, body, EMPTY_OBJECT, EMPTY_OBJECT);
  }

  /** A member nobody asks for, text or number, in front of the others changes nothing. */
  lemma UnknownIgnored(mode: Mode, key: string, text: string, negative: bool, digits: string, body: string)
    requires Unknown(key) && Balanced(text)
    requires digits != "" && AllDigits(digits) && Value(digits) < UINT32_RANGE
    ensures Parse(mode, "{" + (Member(key, Quoted(text)) + "," + body)) == Parse(mode, "{" + body)
    ensures Parse(mode, "{" + (Member(key, LedText(negative, digits)) + "," + body)) == Parse(mode, "{" + body)
  {
    hide Parse, Member, Quoted, Value;
    UnknownText(mode, key, text, body);
    QuotedValue(text);
    SkippedFirst(mode, key, Quoted(text), body);
    UnknownNumber(mode, key, negative, digits, body);
    NumberStarts(negative, digits, "");
    assert LedText(negative, digits) + "" == LedText(negative, digits);
    SkippedFirst(mode, key, LedText(negative, digits), body);
  }

  lemma UnknownText(mode: Mode, key: string, text: string, body: string)
    requires Unknown(key) && Balanced(text)
    ensures MemberValue(mode, key, Quoted(text) + "," + body, EMPTY_OBJECT) == Some((EMPTY_OBJECT, "," + body))
  {
    hide MemberValue, Quoted, Balanced;
    assert Quoted(text) + "," + body == Quoted(text) + ("," + body);
    TextMemberValue(mode, key, text, "," + body, EMPTY_OBJECT);
  }

  lemma NumberStarts(negative: bool, digits: string, rest: string)
    requires digits != "" && AllDigits(digits)
    ensures var s := LedText(negative, digits) + rest;
            && s != "" && s[0] != '"' && s[0] != '{' && !IsWhite(s[0]) && !IsDigit('-')
            && (s[0] == '-') == negative
            && (if negative then s[1..] else s) == digits + rest
            && StartsWithDigit(digits + rest)
  {
    var s := LedText(negative, digits) + rest;
    assert s[0] == if negative then '-' else digits[0];
    assert IsDigit(digits[0]) && (digits + rest)[0] == digits[0];
  }

  lemma UnknownNumber(mode: Mode, key: string, negative: bool, digits: string, body: string)
    requires Unknown(key) && digits != "" && AllDigits(digits) && Value(digits) < UINT32_RANGE
    ensures MemberValue(mode, key, LedText(negative, digits) + "," + body, EMPTY_OBJECT) == Some((EMPTY_OBJECT, "," + body))
  {
    hide Value, SkipTail, SkipDigits, LeadingDigits, LedText, Balanced;
    var more := "," + body;
    assert LedText(negative, digits) + "," + body == LedText(negative, digits) + more;
    NumberStarts(negative, digits, more);
    DigitsThen(digits, more);
    CommaEndsNumber(body);
  }

  // ---------------------------------------------------------------- sequences that are refused

  /** A sequence beyond uint32_t, or any with a minus sign, makes every decoder refuse the object. */
  lemma BadSequenceRefused(mode: Mode, negative: bool, digits: string, body: string)
    requires digits != "" && AllDigits(digits) && (negative || Value(digits) >= 0x1_0000_0000)
    ensures Parse(mode, "{" + (Member("seq", LedText(negative, digits)) + "," + body)) == None
  {
    hide Parse, Member, Members, Value;
    var text := LedText(negative, digits);
    KeysAreBalanced();
    Opens(mode, Member("seq", text) + "," + body);
    NumberStarts(negative, digits, "");
    assert text + "" == text;
    BadSequenceValue(mode, negative, digits, body);
    MemberRefused(mode, "seq", text, body, EMPTY_OBJECT);
  }

  lemma BadSequenceValue(mode: Mode, negative: bool, digits: string, body: string)
    requires digits != "" && AllDigits(digits) && (negative || Value(digits) >= 0x1_0000_0000)
    ensures MemberValue(mode, "seq", LedText(negative, digits) + "," + body, EMPTY_OBJECT) == None
  {
    hide Value, SkipTail, SkipDigits, LeadingDigits, LedText;
    var more := "," + body;
    assert LedText(negative, digits) + "," + body == LedText(negative, digits) + more;
    NumberStarts(negative, digits, more);
    DigitsThen(digits, more);
    CommaEndsNumber(body);
  }
}
