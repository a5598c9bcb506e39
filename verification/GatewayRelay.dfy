/** What the gateway does with one message on its way through: WiFi to server, serial to server, server to node. */
module GatewayRelay {
  import opened Text
  import opened FrameFormat
  import opened FrameBuilder
  import opened FrameDecoder
  import opened FrameParser
  import opened FrameStream
  import opened FrameRoundTrip
  import opened JsonScan
  import opened JsonObject
  import opened JsonMessage
  import opened JsonRoundTrip
  import opened JsonRelay
  import opened ServerDispatch

  /** Size of every JSON buffer in the gateway. */
  const JSON_SIZE := 256

  // ---------------------------------------------------------------- node to server

  /** A message a node may send upstream. */
  datatype Upstream = UpData(data: KvMessage) | UpAck(ack: KvMessage) | UpNack(nack: NackMessage)

  function UpstreamObject(m: Upstream): string {
    match m
    case UpData(data) => KvObject("DATA", data)
    case UpAck(ack) => KvObject("ACK", ack)
    case UpNack(nack) => NackObject(nack)
  }

  function UpstreamText(m: Upstream): string {
    UpstreamObject(m) + "\n"
  }

  function EventOf(m: Upstream): ServerEvent {
    match m
    case UpData(data) => DataEvent(data)
    case UpAck(ack) => AckEvent(ack)
    case UpNack(nack) => NackEvent(nack)
  }

  /** Decoding of a WiFi line: dispatch on the type member, everything else is tried as DATA. */
  function WifiDecode(line: string): Option<Upstream> {
    match PeekType(line, TYPE_SIZE)
    case None => None
    case Some(kind) =>
      if kind == "ACK" then
        match DecodeControlKv("ACK", line)
        case Rejected => None
        case Accepted(m, _) => Some(UpAck(m))
      else if kind == "NACK" then
        match DecodeNackLine(line)
        case Rejected => None
        case Accepted(m, _) => Some(UpNack(m))
      else
        match DecodeDataLine(line)
        case Rejected => None
        case Accepted(m, _) => Some(UpData(m))
  }

  /** Decoding of a serial frame's payload: CMD and unknown types are not upstream traffic. */
  function FrameDecode(payload: string): Option<Upstream> {
    match MessageTypeOf(payload)
    case DataType =>
      (match DecodeKv(payload, "DATA")
       case None => None
       case Some(m) => Some(UpData(m)))
    case AckType =>
      (match DecodeKv(payload, "ACK")
       case None => None
       case Some(m) => Some(UpAck(m)))
    case NackType =>
      (match DecodeNack(payload)
       case None => None
       case Some(m) => Some(UpNack(m)))
    case _ => None
  }

  // ---------------------------------------------------------------- what is pushed, and what the server hears

  /** Nothing is pushed when decoding failed, the sender's identity is refused or the text does not fit. */
  function Pushed(decoded: Option<Upstream>, identityAccepted: bool): Option<string> {
    match decoded
    case None => None
    case Some(m) => if identityAccepted && |UpstreamText(m)| < JSON_SIZE then Some(UpstreamText(m)) else None
  }

  function WifiPush(line: string, identityAccepted: bool): Option<string> {
    Pushed(WifiDecode(line), identityAccepted)
  }

  function FramePush(payload: string, identityAccepted: bool): Option<string> {
    Pushed(FrameDecode(payload), identityAccepted)
  }

  /** The server's reading of what was pushed, its line feed taken off by the line parser. */
  ghost function ServerHears(pushed: Option<string>): ServerEvent {
    match pushed
    case None => Ignored
    case Some(text) => if text == "" then Ignored else ServerReads(text[..|text| - 1])
  }

  method BuildUpstream(m: Upstream) returns (json: Option<string>)
    ensures json == if |UpstreamText(m)| < JSON_SIZE then Some(UpstreamText(m)) else None
  {
    match m {
      case UpData(data) => json := BuildKv(JSON_SIZE, "DATA", data);
      case UpAck(ack) => json := BuildKv(JSON_SIZE, "ACK", ack);
      case UpNack(nack) => json := BuildNackLine(JSON_SIZE, nack);
    }
  }

  /** gateway_app_on_wifi_line: what is decoded, and the line pushed once the sender's identity is accepted. */
  method OnWifiLine(line: string, identityAccepted: bool) returns (decoded: Option<Upstream>, pushed: Option<string>)
    ensures decoded == WifiDecode(line) && pushed == WifiPush(line, identityAccepted)
  {
    hide Parse;
    decoded, pushed := None, None;
    var kind := PeekType(line, TYPE_SIZE);
    if kind.None? {
      return;
    }
    if kind.value == "ACK" {
      var ack := MessageJsonDecodeKv("ACK", line);
      if ack.Rejected? {
        return;
      }
      decoded := Some(UpAck(ack.message));
    } else if kind.value == "NACK" {
      var nack := MessageJsonDecodeNack(line);
      if nack.Rejected? {
        return;
      }
      decoded := Some(UpNack(nack.message));
    } else {
      var data := MessageJsonDecodeData(line);
      if data.Rejected? {
        return;
      }
      decoded := Some(UpData(data.message));
    }
    if identityAccepted {
      pushed := BuildUpstream(decoded.value);
    }
  }

  /** gateway_app_on_frame, the same for a frame from the serial line. */
  method OnFrame(payload: string, identityAccepted: bool) returns (decoded: Option<Upstream>, pushed: Option<string>)
    ensures decoded == FrameDecode(payload) && pushed == FramePush(payload, identityAccepted)
  {
    decoded, pushed := None, None;
    var kind := FrameGetMessageType(payload);
    match kind {
      case DataType =>
        var data := ParseKvPayload(payload, "DATA");
        if data.None? {
          return;
        }
        decoded := Some(UpData(data.value));
      case AckType =>
        var ack := ParseKvPayload(payload, "ACK");
        if ack.None? {
          return;
        }
        decoded := Some(UpAck(ack.value));
      case NackType =>
        var nack := FrameDecodeNack(payload);
        if nack.None? {
          return;
        }
        decoded := Some(UpNack(nack.value));
      case _ =>
        return;
    }
    if identityAccepted {
      pushed := BuildUpstream(decoded.value);
    }
  }

  // ---------------------------------------------------------------- relaying changes nothing

  ghost predicate UpstreamSurvives(m: Upstream) {
    match m
    case UpData(data) => KvSurvives(data)
    case UpAck(ack) => KvSurvives(ack)
    case UpNack(nack) => NackSurvives(nack)
  }

  /** The search results that send the line to the right decoder. */
  ghost predicate Routed(m: Upstream) {
    match m
    case UpData(_) =>
      && !Occurs(UpstreamObject(m), TypeMember("ACK"))
      && !Occurs(UpstreamObject(m), TypeMember("NACK"))
    case UpAck(_) => true
    case UpNack(_) => !Occurs(UpstreamObject(m), TypeMember("ACK"))
  }

  /** The server understands a message as the gateway understood it exactly when the search routes its line. */
  lemma ServerAgreesIff(m: Upstream)
    requires UpstreamSurvives(m)
    ensures ServerReads(UpstreamObject(m)) == EventOf(m) <==> Routed(m)
  {
    hide ServerReads, Occurs, KvSurvives, NackSurvives, KvObject, NackObject;
    match m {
      case UpData(data) => DataReachesStoreIff(data);
      case UpAck(ack) => AckReachesManager(ack);
      case UpNack(nack) => NackReachesManagerIff(nack);
    }
  }

  lemma WifiDecodedSurvives(line: string)
    requires '\0' !in line && WifiDecode(line).Some?
    ensures UpstreamSurvives(WifiDecode(line).value)
  {
    hide DecodeControlKv, DecodeNackLine, DecodeDataLine, PeekType, KvSurvives, NackSurvives;
    match WifiDecode(line).value {
      case UpData(_) => DecodedDataSurvives(line);
      case UpAck(_) => DecodedKvSurvives("ACK", line);
      case UpNack(_) => DecodedNackSurvives(line);
    }
  }

  /**
   * Relaying a WiFi line, however it was written, does not change what it says: decoding the line the
   * gateway prints gives the same message again, and the server sees it as such when the search routes it.
   */
  lemma WifiRelayIsStable(line: string)
    requires '\0' !in line && WifiDecode(line).Some?
    ensures WifiDecode(UpstreamObject(WifiDecode(line).value)) == WifiDecode(line)
    ensures ServerReads(UpstreamObject(WifiDecode(line).value)) == EventOf(WifiDecode(line).value)
            <==> Routed(WifiDecode(line).value)
  {
    hide WifiDecode, ServerReads, UpstreamObject, Routed;
    var m := WifiDecode(line).value;
    WifiDecodedSurvives(line);
    ServerAgreesIff(m);
    PrintedDecodes(m);
  }

  lemma PrintedDecodes(m: Upstream)
    requires UpstreamSurvives(m)
    ensures WifiDecode(UpstreamObject(m)) == Some(m)
  {
    hide Parse, Balanced, FieldsSurvive, KvObject, NackObject;
    assert UpstreamObject(m) + "" == UpstreamObject(m);
    KindsAreBalanced();
    match m {
      case UpData(data) =>
        DataRoundTripIff(data, "");
        KvParses(ControlMode, "DATA", data, "");
      case UpAck(ack) =>
        AckRoundTripIff(ack, "");
        KvParses(ControlMode, "ACK", ack, "");
      case UpNack(nack) =>
        NackRoundTripIff(nack, "");
        NackParses(nack, "");
    }
  }

  ghost predicate BalancedTexts(m: Upstream) {
    match m
    case UpData(data) => Balanced(data.id) && FieldsSurvive(data.fields)
    case UpAck(ack) => Balanced(ack.id) && FieldsSurvive(ack.fields)
    case UpNack(nack) => Balanced(nack.nodeId) && Balanced(nack.error)
  }

  lemma PushedIsHeard(m: Upstream, identityAccepted: bool)
    ensures ServerHears(Pushed(Some(m), identityAccepted))
            == if identityAccepted && |UpstreamText(m)| < JSON_SIZE then ServerReads(UpstreamObject(m)) else Ignored
  {
    assert UpstreamText(m)[..|UpstreamText(m)| - 1] == UpstreamObject(m);
    hide ServerReads, UpstreamObject;
  }

  /** A WiFi message reaches the server as itself if and only if it is pushed at all and the search routes it. */
  lemma WifiRelayIff(line: string, identityAccepted: bool)
    requires '\0' !in line && WifiDecode(line).Some?
    ensures var m := WifiDecode(line).value;
            ServerHears(WifiPush(line, identityAccepted)) == EventOf(m)
            <==> identityAccepted && |UpstreamText(m)| < JSON_SIZE && Routed(m)
  {
    hide WifiDecode, ServerReads, UpstreamText, Routed, ServerHears;
    PushedIsHeard(WifiDecode(line).value, identityAccepted);
    WifiRelayIsStable(line);
  }

  /**
   * A serial message reaches the server as itself if and only if the sender's identity is accepted, its JSON text
   * fits the gateway's buffer, its texts are balanced and the search routes it.
   */
  lemma SerialRelayIff(payload: string, identityAccepted: bool)
    requires FrameDecode(payload).Some?
    ensures var m := FrameDecode(payload).value;
            ServerHears(FramePush(payload, identityAccepted)) == EventOf(m)
            <==> identityAccepted && |UpstreamText(m)| < JSON_SIZE && BalancedTexts(m) && Routed(m)
  {
    hide FrameDecode, ServerReads, UpstreamText, Routed, ServerHears, BalancedTexts;
    var m := FrameDecode(payload).value;
    PushedIsHeard(m, identityAccepted);
    FrameDecodedShape(payload);
    if BalancedTexts(m) {
      ServerAgreesIff(m);
    } else {
      UnbalancedIsChanged(m);
    }
  }

  lemma FrameDecodedShape(payload: string)
    requires FrameDecode(payload).Some?
    ensures BalancedTexts(FrameDecode(payload).value) <==> UpstreamSurvives(FrameDecode(payload).value)
  {
    hide Tokens, ParseFields, Balanced, FieldsSurvive, CString;
  }

  lemma UnbalancedIsChanged(m: Upstream)
    requires !UpstreamSurvives(m)
    ensures ServerReads(UpstreamObject(m)) != EventOf(m)
  {
    hide Occurs, KvSurvives, NackSurvives, DecodeControlKv, DecodeNackLine, DecodeDataLine;
    var line := UpstreamObject(m);
    UpstreamNoNul(m);
    match m {
      case UpData(data) => if DecodeDataLine(line).Accepted? { DecodedDataSurvives(line); }
      case UpAck(ack) => if DecodeControlKv("ACK", line).Accepted? { DecodedKvSurvives("ACK", line); }
      case UpNack(nack) => if DecodeNackLine(line).Accepted? { DecodedNackSurvives(line); }
    }
  }

  lemma UpstreamNoNul(m: Upstream)
    ensures '\0' !in UpstreamObject(m)
  {
    hide Dec, KvObject;
    match m {
      case UpData(data) => KvNoNul("DATA", data);
      case UpAck(ack) => KvNoNul("ACK", ack);
      case UpNack(nack) => DecNoNul(nack.sequence);
    }
  }

  // ---------------------------------------------------------------- frames that do not get through

  function DataPayload(m: KvMessage): string {
    PayloadText(m.id, m.sequence, "DATA", m.fields)
  }

  /** A short DATA message with one field: it can be framed, and its JSON fits. */
  ghost predicate ShortData(m: KvMessage) {
    && IdValid(m.id) && m.sequence < 10 && FieldsValid(m.fields)
    && |m.fields| == 1 && |m.id| <= 6 && |m.fields[0].key| + |m.fields[0].value| <= 100
  }

  lemma ShortDataFits(m: KvMessage)
    requires ShortData(m)
    ensures |UpstreamText(UpData(m))| < JSON_SIZE
  {
    hide IdValid, FieldsValid;
    assert |Dec(m.sequence)| == 1;
  }

  lemma ShortDataBuildable(m: KvMessage)
    requires ShortData(m)
    ensures Buildable(FRAME_MAX_LEN, m.id, m.sequence, "DATA", m.fields)
  {
    hide IdValid, FieldsValid, Pad6, Crc, Hex4;
    assert m.fields[..0] == [];
    assert |FieldsText(m.fields)| == 2 + |m.fields[0].key| + |m.fields[0].value|;
  }

  /** A frame of such a message is decoded to it and pushed. */
  lemma ShortDataPushed(m: KvMessage)
    requires ShortData(m)
    ensures Buildable(FRAME_MAX_LEN, m.id, m.sequence, "DATA", m.fields)
    ensures FrameDecode(DataPayload(m)) == Some(UpData(m))
    ensures FramePush(DataPayload(m), true) == Some(UpstreamText(UpData(m)))
  {
    hide FrameDecode, PayloadText, UpstreamText, Buildable, FieldValid, IdValid;
    ShortDataFits(m);
    ShortDataBuildable(m);
    DataFrameDecodes(m);
  }

  lemma DataFrameDecodes(m: KvMessage)
    requires m.sequence < 1000000 && Buildable(FRAME_MAX_LEN, m.id, m.sequence, "DATA", m.fields)
    ensures FrameDecode(DataPayload(m)) == Some(UpData(m))
  {
    SixDigit(m.sequence);
    KvDecodes(m.id, m.sequence, "DATA", m.fields);
    hide DecodeKv, MessageTypeOf, PayloadText, Buildable, IdValid;
  }

  lemma SixDigit(n: nat)
    requires n < 1000000
    ensures n % 1000000 == n
  {
  }

  /** The frame layer lets a quote through, and the JSON builder does not escape it: the server hears something else. */
  lemma QuotedFieldIsChanged(m: KvMessage)
    requires ShortData(m) && m.fields[0].value == "\""
    ensures FramePush(DataPayload(m), true).Some?
    ensures ServerHears(FramePush(DataPayload(m), true)) != EventOf(UpData(m))
  {
    ShortDataPushed(m);
    assert !Balanced("\"");
    assert !FieldSurvives(m.fields[0]);
    hide FrameDecode, FramePush, ServerHears, Buildable, DataPayload, ShortData, Routed, UpstreamText, Balanced;
    SerialRelayIff(DataPayload(m), true);
  }

  /** A DATA frame with a field called type that says ACK is pushed by the gateway and ignored by the server. */
  lemma MisroutedDataIsPushed(m: KvMessage)
    requires ShortData(m) && m.id == "NODE01" && m.sequence == 1 && m.fields == [Field("type", "ACK")]
    ensures FramePush(DataPayload(m), true) == Some(UpstreamText(UpData(m)))
    ensures ServerHears(FramePush(DataPayload(m), true)) == Ignored
  {
    ShortDataPushed(m);
    MisroutedData();
    hide FrameDecode, ServerReads, ServerHears, Buildable, DataPayload, UpstreamText, ShortData;
    PushedIsHeard(UpData(m), true);
  }

  /** Both are frames a node can send. */
  lemma SuchFramesExist()
    ensures ShortData(KvMessage("NODE01", 1, [Field("K", "\"")]))
    ensures ShortData(KvMessage("NODE01", 1, [Field("type", "ACK")]))
  {
  }

  function LongFields(): (fields: seq<Field>)
    ensures |fields| == FRAME_DATA_MAX_FIELDS && forall i :: 0 <= i < |fields| ==> fields[i] == Field("abcdef", "uvwxyz")
  {
    seq(FRAME_DATA_MAX_FIELDS, _ => Field("abcdef", "uvwxyz"))
  }

  lemma {:induction false} UniformJsonLength(fields: seq<Field>)
    requires fields != [] && forall i :: 0 <= i < |fields| ==> |fields[i].key| == 6 && |fields[i].value| == 6
    ensures |FieldsJson(fields)| == 18 * |fields| - 1
    decreases |fields|
  {
    if |fields| > 1 {
      UniformJsonLength(fields[1..]);
    }
  }

  lemma {:induction false} UniformTextLength(fields: seq<Field>)
    requires forall i :: 0 <= i < |fields| ==> |fields[i].key| == 6 && |fields[i].value| == 6
    ensures |FieldsText(fields)| == 14 * |fields|
  {
    if fields != [] {
      UniformTextLength(fields[..|fields| - 1]);
    }
  }

  /** Sixteen fields of six by six characters fit a frame but not the JSON buffer: the acknowledgement is dropped. */
  lemma LongAckIsDropped(ack: KvMessage)
    requires IdValid(ack.id) && |ack.id| <= 8 && ack.sequence < 1000000 && ack.fields == LongFields()
    ensures Buildable(FRAME_MAX_LEN, ack.id, ack.sequence, "ACK", ack.fields)
    ensures FrameDecode(PayloadText(ack.id, ack.sequence, "ACK", ack.fields)) == Some(UpAck(ack))
    ensures FramePush(PayloadText(ack.id, ack.sequence, "ACK", ack.fields), true) == None
  {
    hide PayloadText, UpstreamText, Buildable, IdValid, FrameDecode, LongFields;
    LongAckBuildable(ack);
    LongAckJson(ack);
    AckFrameDecodes(ack);
  }

  lemma AckFrameDecodes(ack: KvMessage)
    requires ack.sequence < 1000000 && Buildable(FRAME_MAX_LEN, ack.id, ack.sequence, "ACK", ack.fields)
    ensures FrameDecode(PayloadText(ack.id, ack.sequence, "ACK", ack.fields)) == Some(UpAck(ack))
  {
    SixDigit(ack.sequence);
    KvDecodes(ack.id, ack.sequence, "ACK", ack.fields);
    hide DecodeKv, MessageTypeOf, PayloadText, Buildable, IdValid;
  }

  lemma LongAckJson(ack: KvMessage)
    requires ack.fields == LongFields()
    ensures |UpstreamText(UpAck(ack))| >= JSON_SIZE
  {
    hide FieldsJson, Dec;
    UniformJsonLength(ack.fields);
  }

  lemma LongAckBuildable(ack: KvMessage)
    requires IdValid(ack.id) && |ack.id| <= 8 && ack.sequence < 1000000 && ack.fields == LongFields()
    ensures Buildable(FRAME_MAX_LEN, ack.id, ack.sequence, "ACK", ack.fields)
  {
    assert TextValid("abcdef") && TextValid("uvwxyz");
    UniformTextLength(ack.fields);
    hide IdValid, TextValid, FieldsText, Pad6, Crc, Hex4;
  }

  // ---------------------------------------------------------------- server to node

  /** What the node's own parser and decoder make of a chunked serial transmission. */
  ghost predicate NodeReceives(p: Progress, chunks: seq<string>, sender: NodeId, sequence: nat, fields: seq<Field>) {
    exists f: ParsedFrame ::
      && RunChunks(p, chunks).frames == p.frames + [f]
      && MessageTypeOf(f.payload) == CmdType
      && DecodeKv(f.payload, "CMD") == Some(KvMessage(sender, sequence, fields))
  }

  /** The Bluetooth encoding of a command: a frame, or the refusal that becomes cmd_encode_failed. */
  method EncodeForSerial(c: Command) returns (frame: Built)
    ensures frame.Built? <==> Buildable(FRAME_MAX_LEN, c.sender, c.sequence, "CMD", c.fields)
    ensures frame.Built? ==> frame.frame == Seal(PayloadText(c.sender, c.sequence, "CMD", c.fields))
  {
    frame := BuildKvFrame(FRAME_MAX_LEN, c.sender, c.sequence, "CMD", c.fields);
  }

  /**
   * For every line the gateway accepts as a command, the serial encoder either refuses it or the node
   * recovers sender, fields in order and sequence modulo one million, whatever its parser was doing.
   */
  lemma CommandTransit(line: string, p: Progress, chunks: seq<string>)
    requires DecodeCommandLine(line).Accepted? && Collectable(p.partial)
    requires var c := DecodeCommandLine(line).message;
             Buildable(FRAME_MAX_LEN, c.sender, c.sequence, "CMD", c.fields)
             && Joined(chunks) == Seal(PayloadText(c.sender, c.sequence, "CMD", c.fields))
    ensures var c := DecodeCommandLine(line).message;
            NodeReceives(p, chunks, c.sender, c.sequence % 1000000, c.fields)
  {
    hide DecodeCommandLine, Buildable, Seal, RunChunks, Joined;
    var c := DecodeCommandLine(line).message;
    KvFrameRoundTrip(p, c.sender, c.sequence, "CMD", c.fields, chunks);
  }

  /**
   * The serial frame that a command of the server becomes, if any: the server sends it only when its JSON fits 256
   * bytes, the gateway queues it only when it decodes it, and the Bluetooth worker encodes it only when it is a frame.
   */
  function DownlinkFrame(c: Command): Option<string> {
    if |CommandText(c)| >= JSON_SIZE then None else
      match DecodeCommandLine(CommandObject(c))
      case Rejected => None
      case Accepted(d, _) =>
        if Buildable(FRAME_MAX_LEN, d.sender, d.sequence, "CMD", d.fields)
        then Some(Seal(PayloadText(d.sender, d.sequence, "CMD", d.fields))) else None
  }

  /**
   * From the server's command to the node: it is put on the serial line if and only if it fits both formats, and
   * then the node recovers it.
   */
  lemma CommandEndToEnd(c: Command, p: Progress, chunks: seq<string>)
    requires CommandSurvives(c) && Collectable(p.partial)
    ensures DownlinkFrame(c).Some?
            <==> |CommandText(c)| < JSON_SIZE && Buildable(FRAME_MAX_LEN, c.sender, c.sequence, "CMD", c.fields)
    ensures DownlinkFrame(c) == Some(Joined(chunks)) ==> NodeReceives(p, chunks, c.sender, c.sequence % 1000000, c.fields)
  {
    hide DecodeCommandLine, Buildable, Seal, RunChunks, Joined, CommandObject, CommandText, CommandSurvives, NodeReceives;
    CommandRoundTripIff(c, "");
    assert CommandObject(c) + "" == CommandObject(c);
    if DownlinkFrame(c) == Some(Joined(chunks)) {
      CommandTransit(CommandObject(c), p, chunks);
    }
  }
}
