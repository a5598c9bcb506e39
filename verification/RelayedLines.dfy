/** Every message the gateway pushes is one line, and the server understands the lines that reach it. */
module RelayedLines {
  import opened Text
  import opened FrameFormat
  import opened FrameDecoder
  import opened FrameStream
  import opened JsonScan
  import opened JsonObject
  import opened JsonMessage
  import opened JsonRelay
  import opened ServerDispatch
  import opened GatewayRelay
  import opened LineParser
  import Link = ServerLink

  // ---------------------------------------------------------------- scanning adds no line feed

  lemma {:induction false} WhiteFlat(s: string)
    requires '\n' !in s
    ensures '\n' !in SkipWhite(s)
    decreases |s|
  {
    if s != "" && IsWhite(s[0]) {
      WhiteFlat(s[1..]);
    }
  }

  lemma DigitsFlat(s: string)
    requires '\n' !in s
    ensures '\n' !in SkipDigits(s)
  {
    SuffixOfDigits(s);
  }

  lemma TailFlat(s: string)
    requires '\n' !in s
    ensures '\n' !in SkipFraction(s) && '\n' !in SkipTail(s)
  {
    if StartsWith(s, '.') {
      DigitsFlat(s[1..]);
    }
    var f := SkipFraction(s);
    if AtExponent(f) {
      DigitsFlat(AfterExponentMark(f));
    }
  }

  lemma KeyFlat(s: string)
    requires KeyColon(s).Some? && '\n' !in s
    ensures '\n' !in KeyColon(s).value.0 && '\n' !in KeyColon(s).value.1
  {
    hide ScanEnd, SkipWhite;
    var after := ScanString(s[1..]).value.1;
    WhiteFlat(after);
    WhiteFlat(SkipWhite(after)[1..]);
  }

  lemma ValueFlat(s: string)
    requires s != "" && FieldValue(s).Some? && '\n' !in s
    ensures '\n' !in FieldValue(s).value.0 && '\n' !in FieldValue(s).value.1
  {
    hide ScanEnd, SkipNumber;
    if s[0] != '"' {
      NumberSuffix(s);
    }
  }

  lemma SeparatorFlat(s: string)
    requires !Separator(s).Bad? && '\n' !in s
    ensures '\n' !in Separator(s).rest
  {
    WhiteFlat(s);
  }

  lemma CStringFlat(s: string)
    requires '\n' !in s
    ensures '\n' !in CString(s)
  {
  }

  ghost predicate FlatFields(fields: seq<Field>) {
    forall i :: 0 <= i < |fields| ==> '\n' !in fields[i].key && '\n' !in fields[i].value
  }

  lemma AddFieldFlat(fields: seq<Field>, key: string, value: string)
    requires FlatFields(fields) && '\n' !in key && '\n' !in value && AddField(fields, key, value).Some?
    ensures FlatFields(AddField(fields, key, value).value)
  {
    CStringFlat(key);
    CStringFlat(value);
    hide CString;
  }

  lemma {:induction false} FieldMembersFlat(s: string, fields: seq<Field>)
    requires '\n' !in s && FlatFields(fields) && FieldMembers(s, fields).Some?
    ensures FlatFields(FieldMembers(s, fields).value.0) && '\n' !in FieldMembers(s, fields).value.1
    decreases |s|
  {
    hide KeyColon, FieldValue, AddField, Separator, SkipWhite, FlatFields;
    WhiteFlat(s);
    var t := SkipWhite(s);
    if !StartsWith(t, '}') {
      KeyFlat(t);
      var (key, v) := KeyColon(t).value;
      ValueFlat(v);
      var (value, after) := FieldValue(v).value;
      AddFieldFlat(fields, key, value);
      SeparatorFlat(after);
      if Separator(after).More? {
        FieldMembersFlat(Separator(after).rest, AddField(fields, key, value).value);
      }
    }
  }

  ghost predicate FlatObject(obj: JsonObject) {
    && (obj.node.Some? ==> '\n' !in obj.node.value)
    && (obj.sender.Some? ==> '\n' !in obj.sender.value)
    && (obj.error.Some? ==> '\n' !in obj.error.value)
    && FlatFields(obj.fields)
  }

  lemma StringFlat(mode: Mode, key: string, value: string, obj: JsonObject)
    requires '\n' !in value && FlatObject(obj)
    requires (if mode == ControlMode then ControlString(key, value, obj) else DataString(key, value, obj)).Some?
    ensures FlatObject((if mode == ControlMode then ControlString(key, value, obj) else DataString(key, value, obj)).value)
  {
    CStringFlat(value);
    hide CString, FlatFields, Atoi;
  }

  lemma SignedDecFlat(n: int)
    ensures '\n' !in SignedDec(n)
  {
    assert !IsDigit('\n');
  }

  lemma ControlNumberFlat(key: string, s: string, obj: JsonObject)
    requires s != "" && '\n' !in s && FlatObject(obj) && ControlNumber(key, s, obj).Some?
    ensures FlatObject(ControlNumber(key, s, obj).value.0) && '\n' !in ControlNumber(key, s, obj).value.1
  {
    hide SkipTail, SkipDigits, Value, LeadingDigits, FlatFields;
    var digits := if s[0] == '-' then s[1..] else s;
    DigitsFlat(digits);
    TailFlat(SkipDigits(digits));
  }

  lemma DataNumberFlat(key: string, s: string, obj: JsonObject)
    requires s != "" && '\n' !in s && FlatObject(obj) && DataNumber(key, s, obj).Some?
    ensures FlatObject(DataNumber(key, s, obj).value.0) && '\n' !in DataNumber(key, s, obj).value.1
  {
    hide SkipTail, SkipDigits, SkipFraction, AddField, Value, LeadingDigits, GuardedInteger, SignedDec, FlatFields;
    var digits := if StartsWith(s, '-') then s[1..] else s;
    DigitsFlat(s);
    TailFlat(SkipDigits(s));
    DigitsFlat(digits);
    TailFlat(SkipDigits(digits));
    if key == "temperature" || key == "humidity" {
      var x10 := TimesTen(s).value.0;
      SignedDecFlat(x10);
      AddFieldFlat(obj.fields, if key == "temperature" then "T" else "H", SignedDec(x10));
    }
  }

  lemma MemberValueFlat(mode: Mode, key: string, s: string, obj: JsonObject)
    requires s != "" && '\n' !in s && FlatObject(obj) && MemberValue(mode, key, s, obj).Some?
    ensures FlatObject(MemberValue(mode, key, s, obj).value.0) && '\n' !in MemberValue(mode, key, s, obj).value.1
  {
    hide FieldMembers, ScanEnd, ControlString, DataString, ControlNumber, DataNumber, FlatFields;
    if key == "fields" {
      FieldMembersFlat(s[1..], obj.fields);
    } else if s[0] == '"' {
      StringFlat(mode, key, ScanString(s[1..]).value.0, obj);
    } else if mode == ControlMode {
      ControlNumberFlat(key, s, obj);
    } else {
      DataNumberFlat(key, s, obj);
    }
  }

  lemma {:induction false} MembersFlat(mode: Mode, s: string, obj: JsonObject)
    requires '\n' !in s && FlatObject(obj) && Members(mode, s, obj).Some?
    ensures FlatObject(Members(mode, s, obj).value.0)
    decreases |s|
  {
    hide KeyColon, MemberValue, Separator, SkipWhite, FlatObject;
    WhiteFlat(s);
    var t := SkipWhite(s);
    if !StartsWith(t, '}') {
      KeyFlat(t);
      var (key, v) := KeyColon(t).value;
      MemberValueFlat(mode, key, v, obj);
      var (next, after) := MemberValue(mode, key, v, obj).value;
      SeparatorFlat(after);
      if Separator(after).More? {
        MembersFlat(mode, Separator(after).rest, next);
      }
    }
  }

  lemma ParsedFlat(mode: Mode, line: string)
    requires '\n' !in line && Parse(mode, line).Some?
    ensures FlatObject(Parse(mode, line).value.0)
    ensures FlatFields(ObjectFields(Parse(mode, line).value.0))
  {
    hide Members, FlatFields;
    WhiteFlat(line);
    assert FlatObject(EMPTY_OBJECT) by { EmptyFlat(); }
    MembersFlat(mode, SkipWhite(line)[1..], EMPTY_OBJECT);
    var obj := Parse(mode, line).value.0;
    if obj.led.Some? {
      LedFlat(obj.led.value);
    }
    EmptyFlat();
  }

  lemma EmptyFlat()
    ensures FlatFields([])
  {
  }

  lemma LedFlat(led: Int32)
    ensures FlatFields([LedField(led)])
  {
    SignedDecFlat(led);
    assert '\n' !in "LED";
  }

  // ---------------------------------------------------------------- tokens add no line feed

  lemma {:induction false} TokensFlat(text: string)
    requires '\n' !in text
    ensures forall i :: 0 <= i < |Tokens(text)| ==> '\n' !in Tokens(text)[i]
    decreases |text|
  {
    if text != "" {
      if text[0] == ',' {
        TokensFlat(text[1..]);
      } else {
        TokensFlat(text[Find(text, ',')..]);
      }
    }
  }

  lemma {:induction false} ParseFieldsFlat(tokens: seq<string>)
    requires forall i :: 0 <= i < |tokens| ==> '\0' !in tokens[i] && '\n' !in tokens[i]
    requires ParseFields(tokens).Some?
    ensures FlatFields(ParseFields(tokens).value)
  {
    if tokens != [] {
      ParseFieldsFlat(tokens[..|tokens| - 1]);
    }
  }

  // ---------------------------------------------------------------- one pushed line

  ghost predicate FlatMessage(m: Upstream) {
    match m
    case UpData(data) => '\n' !in data.id && FlatFields(data.fields)
    case UpAck(ack) => '\n' !in ack.id && FlatFields(ack.fields)
    case UpNack(nack) => '\n' !in nack.nodeId && '\n' !in nack.error
  }

  lemma WifiDecodedFlat(line: string)
    requires '\n' !in line && WifiDecode(line).Some?
    ensures FlatMessage(WifiDecode(line).value)
  {
    hide Parse, FlatFields, ObjectFields;
    if Parse(ControlMode, line).Some? {
      ParsedFlat(ControlMode, line);
    }
    if Parse(DataMode, line).Some? {
      ParsedFlat(DataMode, line);
    }
  }

  lemma FrameDecodedFlat(payload: string)
    requires '\n' !in payload && FrameDecode(payload).Some?
    ensures FlatMessage(FrameDecode(payload).value)
  {
    hide Tokens, FlatFields, ParseUint32, ParseFields;
    CStringFlat(payload);
    var t := Tokens(CString(payload));
    TokensFlat(CString(payload));
    if ParseFields(t[4..]).Some? {
      ParseFieldsFlat(t[4..]);
    }
  }

  lemma {:induction false} FieldsJsonFlat(fields: seq<Field>)
    requires FlatFields(fields)
    ensures '\n' !in FieldsJson(fields)
    decreases |fields|
  {
    if |fields| > 0 {
      assert '\n' !in FieldJson(fields[0]);
      FieldsJsonFlat(fields[1..]);
    }
  }

  lemma ObjectFlat(m: Upstream)
    requires FlatMessage(m)
    ensures '\n' !in UpstreamObject(m)
  {
    hide Dec, FieldsJson, FlatFields;
    match m {
      case UpData(data) => KvFlat("DATA", data);
      case UpAck(ack) => KvFlat("ACK", ack);
      case UpNack(nack) => assert !IsDigit('\n');
    }
  }

  lemma KvFlat(kind: string, m: KvMessage)
    requires '\n' !in kind && '\n' !in m.id && FlatFields(m.fields)
    ensures '\n' !in KvObject(kind, m)
  {
    hide Dec, FieldsJson, FlatFields;
    FieldsJsonFlat(m.fields);
    assert !IsDigit('\n');
  }

  lemma ObjectEnds(m: Upstream)
    ensures var t := UpstreamObject(m); |t| > 1 && t[|t| - 1] == '}'
  {
    hide Dec, FieldsJson;
  }

  /** A message whose texts hold no line feed is printed as exactly one line, and that line strips to its object. */
  lemma PushIsLine(m: Upstream)
    requires FlatMessage(m)
    ensures Link.IsLine(UpstreamText(m)) && Link.Body(UpstreamText(m)) == UpstreamObject(m)
  {
    hide UpstreamObject, FlatMessage;
    ObjectFlat(m);
    ObjectEnds(m);
    assert UpstreamText(m)[..|UpstreamText(m)| - 1] == UpstreamObject(m);
  }

  /** What a WiFi worker pushes for a line of its stream is one line, and the server's reading of it. */
  lemma WifiPushArrives(line: string, identityAccepted: bool)
    requires '\0' !in line && '\n' !in line && WifiDecode(line).Some?
    ensures var m := WifiDecode(line).value;
            var pushed := WifiPush(line, identityAccepted);
            && (pushed.Some? ==> Link.IsLine(pushed.value) && Link.Body(pushed.value) == UpstreamObject(m))
            && (ServerHears(pushed) == EventOf(m) <==> identityAccepted && |UpstreamText(m)| < JSON_SIZE && Routed(m))
  {
    hide WifiDecode, FlatMessage, Routed, ServerHears, UpstreamText;
    WifiDecodedFlat(line);
    PushIsLine(WifiDecode(line).value);
    WifiRelayIff(line, identityAccepted);
  }

  lemma SpanPayloadFlat(s: string, i: nat, j: nat)
    requires FrameSpan(s, i, j)
    ensures '\n' !in Judge(s[i..j]).frame.payload
  {
    var raw := s[i..j];
    var payload := PayloadOf(raw);
    forall k | 0 <= k < |payload|
      ensures payload[k] != '\n'
    {
      assert payload[k] == raw[1 + k] == s[i + (1 + k)];
      assert !Delimiter(s[i + (1 + k)]);
    }
  }

  /** The payload of a delivered frame holds no line feed. */
  lemma DeliveredPayloadFlat(stream: string, f: ParsedFrame)
    requires f in Delivered(stream)
    ensures '\n' !in f.payload
  {
    hide Delivered, Judge;
    DeliveredIffContained(stream, f);
    var i: nat, j: nat :| FrameSpan(stream, i, j) && f == Judge(stream[i..j]).frame;
    SpanPayloadFlat(stream, i, j);
  }

  /** What the Bluetooth thread pushes for a frame of its stream is one line, and the server's reading of it. */
  lemma SerialPushArrives(stream: string, f: ParsedFrame, identityAccepted: bool)
    requires f in Delivered(stream) && FrameDecode(f.payload).Some?
    ensures var m := FrameDecode(f.payload).value;
            var pushed := FramePush(f.payload, identityAccepted);
            && (pushed.Some? ==> Link.IsLine(pushed.value) && Link.Body(pushed.value) == UpstreamObject(m))
            && (ServerHears(pushed) == EventOf(m)
                <==> identityAccepted && |UpstreamText(m)| < JSON_SIZE && BalancedTexts(m) && Routed(m))
  {
    hide Delivered, FrameDecode, FlatMessage, Routed, ServerHears, UpstreamText, BalancedTexts;
    DeliveredPayloadFlat(stream, f);
    FrameDecodedFlat(f.payload);
    PushIsLine(FrameDecode(f.payload).value);
    SerialRelayIff(f.payload, identityAccepted);
  }

  // ---------------------------------------------------------------- whole runs of the link

  /** text is the line of a message that survives printing and that the server's search routes. */
  ghost predicate Says(text: string, m: Upstream) {
    text == UpstreamText(m) && |text| < JSON_SIZE && UpstreamSurvives(m) && Routed(m)
  }

  ghost predicate Meaningful(text: string) {
    exists m :: Says(text, m)
  }

  /** Everything pushed, and every routing refusal, is such a line. */
  ghost predicate MeaningfulRun(steps: seq<Link.Step>) {
    forall i :: 0 <= i < |steps| ==>
      && (steps[i].Push? ==> Meaningful(steps[i].m))
      && (steps[i].RouteNack? ==> Meaningful(steps[i].line))
  }

  ghost predicate MeaningfulSegments(segments: seq<Link.Segment>) {
    forall i :: 0 <= i < |segments| && segments[i].Whole? ==> Meaningful(segments[i].line)
  }

  ghost predicate MeaningfulState(s: Link.Link) {
    && (forall i :: 0 <= i < |s.accepted| ==> Meaningful(s.accepted[i]))
    && MeaningfulSegments(s.current)
    && forall c :: 0 <= c < |s.past| ==> MeaningfulSegments(s.past[c])
  }

  lemma StepKeepsMeaning(s: Link.Link, step: Link.Step)
    requires Link.Inv(s) && Link.Enabled(s, step) && MeaningfulState(s)
    requires (step.Push? ==> Meaningful(step.m)) && (step.RouteNack? ==> Meaningful(step.line))
    ensures MeaningfulState(Link.Next(s, step))
  {
    hide Meaningful, Link.IsLine, Link.Upstream, Link.UpstreamAll;
    if step.Send? && s.pending.Some? {
      assert s.accepted[|s.sent|] == s.pending.value;
    }
  }

  lemma {:induction false} RunsKeepMeaning(s: Link.Link, steps: seq<Link.Step>, s': Link.Link)
    requires Link.Inv(s) && MeaningfulState(s) && Link.Reaches(s, steps, s') && MeaningfulRun(steps)
    ensures MeaningfulState(s')
    decreases |steps|
  {
    hide Link.Inv, MeaningfulState, Link.Next, Link.Enabled, Meaningful;
    if steps != [] {
      Link.StepKeeps(s, steps[0]);
      StepKeepsMeaning(s, steps[0]);
      assert forall i :: 0 <= i < |steps[1..]| ==> steps[1..][i] == steps[i + 1];
      RunsKeepMeaning(Link.Next(s, steps[0]), steps[1..], s');
    }
  }

  /** The server takes the line for the message the gateway printed as it. */
  ghost predicate Understood(line: string) {
    exists m :: line == UpstreamObject(m) && ServerReads(line) == EventOf(m)
  }

  lemma MeaningfulIsUnderstood(text: Link.Line)
    requires Meaningful(text)
    ensures Understood(Link.Body(text)) && |text| <= 256
  {
    hide ServerReads, UpstreamObject, Routed, UpstreamSurvives;
    var m :| Says(text, m);
    assert Link.Body(text) == UpstreamObject(m);
    ServerAgreesIff(m);
  }

  lemma {:induction false} BodiesUnderstood(segments: seq<Link.Segment>, k: nat)
    requires MeaningfulSegments(segments) && k < |Link.Bodies(segments)|
    ensures Understood(Link.Bodies(segments)[k])
    decreases |segments|
  {
    hide Meaningful, Understood;
    var rest := segments[1..];
    assert forall i :: 0 <= i < |rest| ==> rest[i] == segments[i + 1];
    match segments[0] {
      case Whole(line, _) =>
        MeaningfulIsUnderstood(line);
        if k > 0 {
          BodiesUnderstood(rest, k - 1);
        }
      case Torn(_) =>
        BodiesUnderstood(rest, k);
    }
  }

  /**
   * Over any run of the link in which routing refusals are written completely, with any number of reconnects, whatever
   * prefix of each connection's bytes reaches the server and however its reads cut that prefix up: on every connection
   * the server parses the first lines written, it takes each for the message the gateway meant, and the queue messages
   * among them are accepted messages in acceptance order, none of them twice.
   */
  lemma ServerSeesRun(steps: seq<Link.Step>, s: Link.Link, cuts: seq<nat>, chunks: seq<seq<string>>) returns (positions: seq<nat>)
    requires Link.Reaches(Link.IDLE, steps, s) && Link.NacksComplete(steps) && MeaningfulRun(steps)
    requires |cuts| == |chunks| == |Link.Connections(s)|
    requires forall c: nat :: c < |cuts| ==>
               && cuts[c] <= |Link.Bytes(Link.Connections(s)[c])|
               && Joined(chunks[c]) == Link.Bytes(Link.Connections(s)[c])[..cuts[c]]
               && forall i :: 0 <= i < |chunks[c]| ==> |chunks[c][i]| <= 256
    ensures forall c: nat :: c < |cuts| ==>
              && ReceiveAll(4096, "", chunks[c]).1 == Link.Bodies(Link.Complete(Link.Connections(s)[c], cuts[c]))
              && forall k :: 0 <= k < |ReceiveAll(4096, "", chunks[c]).1| ==> Understood(ReceiveAll(4096, "", chunks[c]).1[k])
    ensures Link.PickedInOrder(Link.Arrived(Link.Connections(s), cuts), s.accepted, positions)
  {
    hide ReceiveAll, Joined, Link.Reaches, Link.NacksComplete, Lines, Link.Bytes, Link.Bodies, Link.Complete, Understood,
      Meaningful;
    positions := Link.AtMostOnceInOrder(steps, s, cuts);
    assert MeaningfulState(Link.IDLE) && Link.Inv(Link.IDLE);
    RunsKeepMeaning(Link.IDLE, steps, s);
    forall c: nat | c < |cuts|
      ensures ReceiveAll(4096, "", chunks[c]).1 == Link.Bodies(Link.Complete(Link.Connections(s)[c], cuts[c]))
      ensures forall k :: 0 <= k < |ReceiveAll(4096, "", chunks[c]).1| ==> Understood(ReceiveAll(4096, "", chunks[c]).1[k])
    {
      ConnectionUnderstood(steps, s, c, cuts[c], chunks[c]);
    }
  }

  lemma ConnectionUnderstood(steps: seq<Link.Step>, s: Link.Link, c: nat, n: nat, chunks: seq<string>)
    requires Link.Reaches(Link.IDLE, steps, s) && Link.NacksComplete(steps) && MeaningfulState(s)
    requires c < |Link.Connections(s)| && n <= |Link.Bytes(Link.Connections(s)[c])|
    requires Joined(chunks) == Link.Bytes(Link.Connections(s)[c])[..n] && forall i :: 0 <= i < |chunks| ==> |chunks[i]| <= 256
    ensures ReceiveAll(4096, "", chunks).1 == Lines(Link.Bytes(Link.Connections(s)[c])[..n])
    ensures forall k :: 0 <= k < |ReceiveAll(4096, "", chunks).1| ==> Understood(ReceiveAll(4096, "", chunks).1[k])
  {
    hide ReceiveAll, Joined, Link.Reaches, Link.NacksComplete, Lines, Link.Bytes, Link.Bodies, Understood, Meaningful;
    var segments := Link.Connections(s)[c];
    assert MeaningfulSegments(segments);
    forall i | 0 <= i < |segments| && segments[i].Whole?
      ensures |segments[i].line| <= 256
    {
      MeaningfulIsUnderstood(segments[i].line);
    }
    Link.ServerBufferSuffices(steps, s, c, n, chunks);
    Link.NothingTornArrives(steps, s, c, n);
    var lines := ReceiveAll(4096, "", chunks).1;
    forall k | 0 <= k < |lines|
      ensures Understood(lines[k])
    {
      BodiesUnderstood(segments, k);
    }
  }

  // ---------------------------------------------------------------- a torn routing refusal

  /** No decoder reads a line that starts with two braces. */
  lemma TwoBracesIgnored(rest: string)
    requires rest != "" && rest[0] == '{'
    ensures ServerReads("{" + rest) == Ignored
  {
    var line := "{" + rest;
    assert line[1..] == rest && SkipWhite(line) == line && SkipWhite(rest) == rest;
    assert KeyColon(rest).None?;
    assert Parse(ControlMode, line).None? && Parse(DataMode, line).None?;
    hide Parse;
  }

  /**
   * Any routing refusal torn after its first byte, and any queue message sent after it: the link counts the message as
   * sent and forgets it, but the server gets one merged line that it ignores.
   */
  lemma TornNackSwallowsMessage(nack: NackMessage, m: Upstream) returns (steps: seq<Link.Step>, s: Link.Link)
    requires FlatMessage(UpNack(nack)) && FlatMessage(m) && |UpstreamText(m)| < JSON_SIZE
    ensures Link.Reaches(Link.IDLE, steps, s)
    ensures s.accepted == s.sent == [UpstreamText(m)] && s.pending.None? && s.queue.items == []
    ensures |Link.Connections(s)| == 2 && !Link.TornLast(Link.Connections(s)[0])
    ensures Lines(Link.Bytes(Link.Connections(s)[0])) == ["{" + UpstreamObject(m)]
    ensures ServerReads("{" + UpstreamObject(m)) == Ignored
  {
    hide UpstreamObject, FlatMessage, ServerReads;
    PushIsLine(UpNack(nack));
    PushIsLine(m);
    var line, text := UpstreamText(UpNack(nack)), UpstreamText(m);
    StartsWithBrace(UpNack(nack));
    StartsWithBrace(m);
    steps, s := TornRun(line, text);
    TwoBracesIgnored(UpstreamObject(m));
    hide *;
    assert line[..1] == "{";
  }

  lemma StartsWithBrace(m: Upstream)
    ensures |UpstreamObject(m)| >= 1 && UpstreamObject(m)[0] == '{'
  {
    hide Dec, FieldsJson;
  }

  /** Push, connect, tear the refusal after one byte, take the message, send it, lose the connection. */
  lemma TornRun(line: Link.Line, text: Link.Line) returns (steps: seq<Link.Step>, s: Link.Link)
    requires |text| <= 256 && '\n' != line[0]
    ensures Link.Reaches(Link.IDLE, steps, s)
    ensures s.accepted == s.sent == [text] && s.pending.None? && s.queue.items == []
    ensures |Link.Connections(s)| == 2 && !Link.TornLast(Link.Connections(s)[0])
    ensures Lines(Link.Bytes(Link.Connections(s)[0])) == [line[..1] + Link.Body(text)]
  {
    hide Lines, Link.Bytes, Link.IsLine;
    var s1 := Link.Next(Link.IDLE, Link.Push(text));
    var s2 := Link.Next(s1, Link.Connect);
    var s3 := Link.Next(s2, Link.RouteNack(line, 1));
    assert |line| > 1 by { LineHasTwo(line); }
    var s4 := Link.Next(s3, Link.Pop);
    var s5 := Link.Next(s4, Link.Send(|text|));
    s := Link.Next(s5, Link.Lose);
    steps := [Link.Push(text), Link.Connect, Link.RouteNack(line, 1), Link.Pop, Link.Send(|text|), Link.Lose];
    var segments := [Link.Torn(line[..1]), Link.Whole(text, true)];
    assert s2.queue.items == [text] && s2.connected && s2.current == [];
    assert s3.current == [Link.Torn(line[..1])] && s3.queue.items == [text];
    assert s4.pending == Some(text) && s4.queue.items == [] && s4.current == s3.current;
    assert s5.current == s4.current + [Link.Whole(text, true)] == segments;
    assert s.past == [segments];
    assert Link.Connections(s)[0] == segments;
    assert segments[0].Torn? && segments[1].Whole? && segments[0].part != "";
    TornBytes(line[..1], text);
    SixSteps(steps, s1, s2, s3, s4, s5, s);
  }

  lemma LineHasTwo(line: Link.Line)
    ensures |line| > 1
  {
  }

  lemma SixSteps(steps: seq<Link.Step>, s1: Link.Link, s2: Link.Link, s3: Link.Link, s4: Link.Link, s5: Link.Link, s: Link.Link)
    requires |steps| == 6
    requires Link.Enabled(Link.IDLE, steps[0]) && s1 == Link.Next(Link.IDLE, steps[0])
    requires Link.Enabled(s1, steps[1]) && s2 == Link.Next(s1, steps[1])
    requires Link.Enabled(s2, steps[2]) && s3 == Link.Next(s2, steps[2])
    requires Link.Enabled(s3, steps[3]) && s4 == Link.Next(s3, steps[3])
    requires Link.Enabled(s4, steps[4]) && s5 == Link.Next(s4, steps[4])
    requires Link.Enabled(s5, steps[5]) && s == Link.Next(s5, steps[5])
    ensures Link.Reaches(Link.IDLE, steps, s)
  {
    hide Link.Next, Link.Enabled;
    assert steps[1..][1..] == steps[2..] && steps[2..][1..] == steps[3..] && steps[3..][1..] == steps[4..]
      && steps[4..][1..] == steps[5..] && steps[5..][1..] == [];
    assert Link.Reaches(s, [], s);
    assert Link.Reaches(s5, steps[5..], s);
    assert Link.Reaches(s4, steps[4..], s);
    assert Link.Reaches(s3, steps[3..], s);
    assert Link.Reaches(s2, steps[2..], s);
    assert Link.Reaches(s1, steps[1..], s);
  }

  lemma TornBytes(part: string, text: Link.Line)
    requires '\n' !in part
    ensures Lines(Link.Bytes([Link.Torn(part), Link.Whole(text, true)])) == [Strip(part + Link.Body(text))]
    ensures Strip(part + Link.Body(text)) == part + Link.Body(text)
  {
    var segments := [Link.Torn(part), Link.Whole(text, true)];
    assert segments[1..] == [Link.Whole(text, true)] && segments[1..][1..] == [];
    assert Link.Bytes([Link.Whole(text, true)]) == text + Link.Bytes([]);
    assert Link.Bytes(segments) == part + Link.Bytes([Link.Whole(text, true)]);
    assert Link.Bytes(segments) == part + text + "";
    Link.LineFormed(part, text, "");
    NoFeed("");
    hide Link.Bytes, Lines;
  }
}
