/** The JSON lines between server, gateway and WiFi nodes. */
module JsonMessage {
  import opened Text
  import opened FrameFormat
  import opened FrameDecoder
  import opened JsonScan
  import opened JsonObject
  import JsonParser

  /** A command as the server sends it: routed by target, signed by sender. */
  datatype Command = Command(target: NodeId, sender: NodeId, sequence: nat, fields: seq<Field>)

  // ---------------------------------------------------------------- printing

  function FieldJson(f: Field): string {
    Quoted(f.key) + ":" + Quoted(f.value)
  }

  function FieldsJson(fields: seq<Field>): string {
    if fields == [] then ""
    else if |fields| == 1 then FieldJson(fields[0])
    else FieldJson(fields[0]) + "," + FieldsJson(fields[1..])
  }

  function Member(key: string, value: string): string {
    Quoted(key) + ":" + value
  }

  function FieldsMember(fields: seq<Field>): string {
    Member("fields", "{" + FieldsJson(fields) + "}")
  }

  /** A DATA, ACK or CMD object without the line feed that ends its line. */
  function KvObject(kind: string, m: KvMessage): string {
    "{" + Member("node", Quoted(m.id)) + "," + Member("seq", Dec(m.sequence)) + ","
    + Member("type", Quoted(kind)) + "," + FieldsMember(m.fields) + "}"
  }

  function CommandObject(c: Command): string {
    "{" + Member("node", Quoted(c.target)) + "," + Member("sender", Quoted(c.sender)) + ","
    + Member("seq", Dec(c.sequence)) + "," + Member("type", Quoted("CMD")) + "," + FieldsMember(c.fields) + "}"
  }

  function NackObject(m: NackMessage): string {
    "{" + Member("node", Quoted(m.nodeId)) + "," + Member("seq", Dec(m.sequence)) + ","
    + Member("type", Quoted("NACK")) + "," + Member("error", Quoted(m.error)) + "}"
  }

  function KvText(kind: string, m: KvMessage): string {
    KvObject(kind, m) + "\n"
  }

  function CommandText(c: Command): string {
    CommandObject(c) + "\n"
  }

  function NackLine(m: NackMessage): string {
    NackObject(m) + "\n"
  }

  lemma {:induction false} FieldsJsonAppend(fields: seq<Field>, f: Field)
    ensures FieldsJson(fields + [f]) == FieldsJson(fields) + (if fields == [] then "" else ",") + FieldJson(f)
    decreases |fields|
  {
    hide FieldJson;
    if fields != [] {
      assert (fields + [f])[1..] == fields[1..] + [f];
      FieldsJsonAppend(fields[1..], f);
    }
  }

  lemma {:induction false} FieldsJsonGrows(fields: seq<Field>, n: nat)
    requires n <= |fields|
    ensures |FieldsJson(fields[..n])| <= |FieldsJson(fields)|
    decreases |fields|
  {
    if n < |fields| {
      var init := fields[..|fields| - 1];
      assert init + [fields[|fields| - 1]] == fields;
      FieldsJsonAppend(init, fields[|fields| - 1]);
      assert init[..n] == fields[..n];
      FieldsJsonGrows(init, n);
    } else {
      assert fields[..n] == fields;
    }
  }

  /** Prefix, field loop and closing braces, each checked against the space left. */
  method PrintFields(outSize: nat, prefix: string, fields: seq<Field>) returns (r: Option<string>)
    ensures r == if |prefix + FieldsJson(fields) + "}}\n"| < outSize then Some(prefix + FieldsJson(fields) + "}}\n")
                 else None
  {
    if |prefix| >= outSize {
      return None;
    }
    var out := prefix;
    for i := 0 to |fields|
      invariant out == prefix + FieldsJson(fields[..i]) && |out| < outSize
    {
      var written := (if i > 0 then "," else "") + (Quoted(fields[i].key) + ":" + Quoted(fields[i].value));
      assert fields[..i + 1] == fields[..i] + [fields[i]];
      FieldsJsonAppend(fields[..i], fields[i]);
      assert prefix + FieldsJson(fields[..i + 1]) == out + written;
      if |written| >= outSize - |out| {
        FieldsJsonGrows(fields, i + 1);
        return None;
      }
      out := out + written;
    }
    assert fields[..|fields|] == fields;
    if |"}}\n"| >= outSize - |out| {
      return None;
    }
    return Some(out + "}}\n");
  }

  /** The literal between two quoted texts, split where the member text splits it. */
  lemma Joints()
    ensures "{\"node\":\"" == "{" + (Quoted("node") + ":") + "\""
    ensures "\",\"sender\":\"" == "\"" + "," + (Quoted("sender") + ":") + "\""
    ensures "\",\"seq\":" == "\"" + "," + (Quoted("seq") + ":")
    ensures ",\"type\":\"" == "," + (Quoted("type") + ":") + "\""
    ensures "\",\"fields\":{" == "\"" + "," + (Quoted("fields") + ":") + "{"
    ensures "\",\"error\":\"" == "\"" + "," + (Quoted("error") + ":") + "\""
    ensures "\"}\n" == "\"" + "}\n"
    ensures "}}\n" == "}" + "}\n"
  {
  }

  lemma JoinKv(o: string, q: string, c: string, node: string, id: string, seqKey: string, n: string,
               typeKey: string, kind: string, fieldsKey: string)
    ensures (o + node + q) + id + (q + c + seqKey) + n + (c + typeKey + q) + kind + (q + c + fieldsKey + o)
            == o + (node + (q + id + q)) + c + (seqKey + n) + c + (typeKey + (q + kind + q)) + c + (fieldsKey + o)
  {
  }

  lemma JoinMembers(prefix: string, fieldsKey: string, fields: string)
    ensures prefix + (Quoted("fields") + ":" + "{") + fields + ("}" + "}\n")
            == prefix + Member("fields", "{" + fields + "}") + "}" + "\n"
  {
  }

  lemma KvTextParts(kind: string, m: KvMessage)
    ensures "{\"node\":\"" + m.id + "\",\"seq\":" + Dec(m.sequence) + ",\"type\":\"" + kind + "\",\"fields\":{"
            + FieldsJson(m.fields) + "}}\n" == KvText(kind, m)
  {
    hide Dec, FieldsJson;
    Joints();
    var head := "{" + Member("node", Quoted(m.id)) + "," + Member("seq", Dec(m.sequence)) + ","
                + Member("type", Quoted(kind)) + ",";
    JoinKv("{", "\"", ",", Quoted("node") + ":", m.id, Quoted("seq") + ":", Dec(m.sequence),
           Quoted("type") + ":", kind, Quoted("fields") + ":");
    JoinMembers(head, "", FieldsJson(m.fields));
  }

  /** Succeeds exactly when the whole line and its terminating NUL fit. */
  method BuildKv(outSize: nat, kind: string, m: KvMessage) returns (r: Option<string>)
    ensures r == if |KvText(kind, m)| < outSize then Some(KvText(kind, m)) else None
  {
    hide KvText, FieldsJson, Dec;
    var prefix := "{\"node\":\"" + m.id + "\",\"seq\":" + Dec(m.sequence) + ",\"type\":\"" + kind + "\",\"fields\":{";
    r := PrintFields(outSize, prefix, m.fields);
    KvTextParts(kind, m);
  }

  lemma JoinCommand(o: string, q: string, c: string, node: string, id: string, senderKey: string, sender: string,
                    seqKey: string, n: string, typeKey: string, fieldsKey: string)
    ensures (o + node + q) + id + (q + c + senderKey + q) + sender + (q + c + seqKey) + n
            + (c + typeKey + q) + "CMD" + (q + c + fieldsKey + o)
            == o + (node + (q + id + q)) + c + (senderKey + (q + sender + q)) + c + (seqKey + n) + c
               + (typeKey + (q + "CMD" + q)) + c + (fieldsKey + o)
  {
  }

  lemma CommandTextParts(m: Command)
    ensures "{\"node\":\"" + m.target + "\",\"sender\":\"" + m.sender + "\",\"seq\":" + Dec(m.sequence)
            + ",\"type\":\"" + "CMD" + "\",\"fields\":{" + FieldsJson(m.fields) + "}}\n" == CommandText(m)
  {
    hide Dec, FieldsJson;
    Joints();
    var head := "{" + Member("node", Quoted(m.target)) + "," + Member("sender", Quoted(m.sender)) + ","
                + Member("seq", Dec(m.sequence)) + "," + Member("type", Quoted("CMD")) + ",";
    JoinCommand("{", "\"", ",", Quoted("node") + ":", m.target, Quoted("sender") + ":", m.sender,
                Quoted("seq") + ":", Dec(m.sequence), Quoted("type") + ":", Quoted("fields") + ":");
    JoinMembers(head, "", FieldsJson(m.fields));
  }

  method BuildCommand(outSize: nat, c: Command) returns (r: Option<string>)
    ensures r == if |CommandText(c)| < outSize then Some(CommandText(c)) else None
  {
    hide CommandText, FieldsJson, Dec;
    var prefix := "{\"node\":\"" + c.target + "\",\"sender\":\"" + c.sender + "\",\"seq\":" + Dec(c.sequence)
                  + ",\"type\":\"" + "CMD" + "\",\"fields\":{";
    r := PrintFields(outSize, prefix, c.fields);
    CommandTextParts(c);
  }

  lemma JoinNack(o: string, q: string, c: string, node: string, id: string, seqKey: string, n: string,
                 typeKey: string, errorKey: string, error: string, end: string)
    ensures (o + node + q) + id + (q + c + seqKey) + n + (c + typeKey + q) + "NACK" + (q + c + errorKey + q) + error
            + (q + end)
            == o + (node + (q + id + q)) + c + (seqKey + n) + c + (typeKey + (q + "NACK" + q)) + c
               + (errorKey + (q + error + q)) + end
  {
  }

  lemma NackLineParts(m: NackMessage)
    ensures "{\"node\":\"" + m.nodeId + "\",\"seq\":" + Dec(m.sequence) + ",\"type\":\"" + "NACK"
            + "\",\"error\":\"" + m.error + "\"}\n" == NackLine(m)
  {
    hide Dec;
    Joints();
    JoinNack("{", "\"", ",", Quoted("node") + ":", m.nodeId, Quoted("seq") + ":", Dec(m.sequence),
             Quoted("type") + ":", Quoted("error") + ":", m.error, "}" + "\n");
  }

  method BuildNackLine(outSize: nat, m: NackMessage) returns (r: Option<string>)
    ensures r == if |NackLine(m)| < outSize then Some(NackLine(m)) else None
  {
    hide NackLine, Dec;
    var out := "{\"node\":\"" + m.nodeId + "\",\"seq\":" + Dec(m.sequence) + ",\"type\":\"" + "NACK"
               + "\",\"error\":\"" + m.error + "\"}\n";
    NackLineParts(m);
    if |out| >= outSize {
      return None;
    }
    return Some(out);
  }

  /** A refusal generated by the gateway always fits its 256 byte buffer. */
  lemma NackAlwaysFits(m: NackMessage)
    requires m.sequence < UINT32_RANGE
    ensures |NackLine(m)| <= 116
  {
    assert Power10(5) == 100000;
    assert Power10(10) == 10 * (10 * (10 * (10 * (10 * Power10(5)))));
    DecLength(m.sequence, 10);
  }

  // ---------------------------------------------------------------- decoding

  /** A decoded message and the number of bytes consumed. */
  datatype Decoded<T> = Accepted(message: T, consumed: nat) | Rejected

  function ObjectFields(obj: JsonObject): seq<Field> {
    if obj.foundFields then obj.fields
    else if obj.led.Some? then [LedField(obj.led.value)]
    else []
  }

  /** The legacy led member as a field. */
  function LedField(led: Int32): Field {
    Int32Text(led);
    Field("LED", SignedDec(led))
  }

  function DecodeControlKv(kind: string, line: string): Decoded<KvMessage> {
    match Parse(ControlMode, line)
    case None => Rejected
    case Some((obj, rest)) =>
      if obj.node.None? || obj.sequence.None? || obj.kind != Some(kind) then Rejected
      else Accepted(KvMessage(obj.node.value, obj.sequence.value, ObjectFields(obj)), |line| - |rest|)
  }

  function DecodeCommandLine(line: string): Decoded<Command> {
    match Parse(ControlMode, line)
    case None => Rejected
    case Some((obj, rest)) =>
      if obj.node.None? || obj.sender.None? || obj.sequence.None? || obj.kind != Some("CMD") then Rejected
      else Accepted(Command(obj.node.value, obj.sender.value, obj.sequence.value, ObjectFields(obj)),
                    |line| - |rest|)
  }

  function DecodeNackLine(line: string): Decoded<NackMessage> {
    match Parse(ControlMode, line)
    case None => Rejected
    case Some((obj, rest)) =>
      if obj.node.None? || obj.sequence.None? || obj.error.None? || obj.kind != Some("NACK") then Rejected
      else Accepted(NackMessage(obj.node.value, obj.sequence.value, obj.error.value), |line| - |rest|)
  }

  function DecodeDataLine(line: string): Decoded<KvMessage> {
    match Parse(DataMode, line)
    case None => Rejected
    case Some((obj, rest)) =>
      if obj.node.None? || obj.sequence.None? || obj.kind.None? then Rejected
      else Accepted(KvMessage(obj.node.value, obj.sequence.value, obj.fields), |line| - |rest|)
  }

  /** The type member, when the line parses and has one that fits the caller's buffer. */
  function PeekType(line: string, typeSize: nat): Option<string> {
    match Parse(ControlMode, line)
    case None => None
    case Some((obj, _)) =>
      if obj.kind.None? || |obj.kind.value| + 1 > typeSize then None else obj.kind
  }

  method MessageJsonDecodeKv(kind: string, line: string) returns (r: Decoded<KvMessage>)
    ensures r == DecodeControlKv(kind, line)
  {
    var parsed := JsonParser.JsonParseObject(ControlMode, line);
    if parsed.None? {
      return Rejected;
    }
    var (obj, consumed) := parsed.value;
    if obj.node.None? || obj.sequence.None? || obj.kind.None? {
      return Rejected;
    }
    if obj.kind.value != kind {
      return Rejected;
    }
    return Accepted(KvMessage(obj.node.value, obj.sequence.value, ObjectFields(obj)), consumed);
  }

  method MessageJsonDecodeCommand(line: string) returns (r: Decoded<Command>)
    ensures r == DecodeCommandLine(line)
  {
    var parsed := JsonParser.JsonParseObject(ControlMode, line);
    if parsed.None? {
      return Rejected;
    }
    var (obj, consumed) := parsed.value;
    if obj.node.None? || obj.sender.None? || obj.sequence.None? || obj.kind.None? {
      return Rejected;
    }
    if obj.kind.value != "CMD" {
      return Rejected;
    }
    return Accepted(Command(obj.node.value, obj.sender.value, obj.sequence.value, ObjectFields(obj)), consumed);
  }

  method MessageJsonDecodeNack(line: string) returns (r: Decoded<NackMessage>)
    ensures r == DecodeNackLine(line)
  {
    var parsed := JsonParser.JsonParseObject(ControlMode, line);
    if parsed.None? {
      return Rejected;
    }
    var (obj, consumed) := parsed.value;
    if obj.node.None? || obj.sequence.None? || obj.error.None? || obj.kind.None? {
      return Rejected;
    }
    if obj.kind.value != "NACK" {
      return Rejected;
    }
    return Accepted(NackMessage(obj.node.value, obj.sequence.value, obj.error.value), consumed);
  }

  method MessageJsonDecodeData(line: string) returns (r: Decoded<KvMessage>)
    ensures r == DecodeDataLine(line)
  {
    var parsed := JsonParser.JsonParseObject(DataMode, line);
    if parsed.None? {
      return Rejected;
    }
    var (obj, consumed) := parsed.value;
    if obj.node.None? || obj.sequence.None? || obj.kind.None? {
      return Rejected;
    }
    return Accepted(KvMessage(obj.node.value, obj.sequence.value, obj.fields), consumed);
  }
}
