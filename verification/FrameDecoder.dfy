/** Taking accepted frames apart again. */
module FrameDecoder {
  import opened Text
  import opened FrameFormat

  // ---------------------------------------------------------------- library calls

  /** The tokens strtok_r(text, ",") yields: maximal runs without a comma, empty ones skipped. */
  function Tokens(text: string): (tokens: seq<string>)
    ensures forall i :: 0 <= i < |tokens| ==> tokens[i] != "" && ',' !in tokens[i]
    ensures '\0' !in text ==> forall i :: 0 <= i < |tokens| ==> '\0' !in tokens[i]
    decreases |text|
  {
    if text == "" then []
    else if text[0] == ',' then Tokens(text[1..])
    else
      var k := Find(text, ',');
      [text[..k]] + Tokens(text[k..])
  }

  const ULONG_RANGE := 0x1_0000_0000_0000_0000

  /** strtoul on a 64-bit target, accepted only when it consumes the whole text and fits uint32_t. */
  function ParseUint32(text: string): (value: Option<nat>)
    ensures value.Some? ==> value.value < UINT32_RANGE
  {
    var s := SkipSpace(text);
    var negative := s != "" && s[0] == '-';
    var digits := if s != "" && (s[0] == '-' || s[0] == '+') then s[1..] else s;
    if digits == "" || !AllDigits(digits) || Value(digits) >= ULONG_RANGE then None
    else
      var parsed := if negative then (ULONG_RANGE - Value(digits)) % ULONG_RANGE else Value(digits);
      if parsed < UINT32_RANGE then Some(parsed) else None
  }

  // ---------------------------------------------------------------- what a payload means

  datatype KvMessage = KvMessage(id: NodeId, sequence: nat, fields: seq<Field>)

  datatype NackMessage = NackMessage(nodeId: NodeId, sequence: nat, error: NodeId)

  datatype MessageType = DataType | CmdType | AckType | NackType | UnknownType

  function ParseField(kv: string): Option<Field>
    requires '\0' !in kv
  {
    var eq := Find(kv, '=');
    if eq == |kv| || eq == 0 || eq + 1 == |kv| then None
    else if eq >= FRAME_KV_KEY_MAX || |kv| - eq - 1 >= FRAME_KV_VALUE_MAX then None
    else Some(Field(kv[..eq], kv[eq + 1..]))
  }

  /** All key-value tokens, or None as soon as one of them is malformed. */
  function ParseFields(tokens: seq<string>): (fields: Option<seq<Field>>)
    requires forall i :: 0 <= i < |tokens| ==> '\0' !in tokens[i]
    ensures fields.Some? ==> |fields.value| == |tokens|
  {
    if tokens == [] then Some([]) else
      match (ParseFields(tokens[..|tokens| - 1]), ParseField(tokens[|tokens| - 1]))
      case (Some(fields), Some(f)) => Some(fields + [f])
      case _ => None
  }

  function DecodeKv(payload: string, kind: string): Option<KvMessage> {
    var t := Tokens(CString(payload));
    if |t| < 4 || |t| > 4 + FRAME_DATA_MAX_FIELDS then None
    else if t[0] != "1" || t[3] != kind || |t[1]| >= NODE_ID_SIZE || |t[2]| != 6 then None
    else
      match (ParseUint32(t[2]), ParseFields(t[4..]))
      case (Some(sequence), Some(fields)) => Some(KvMessage(t[1], sequence, fields))
      case _ => None
  }

  function DecodeNack(payload: string): Option<NackMessage> {
    var t := Tokens(CString(payload));
    if |t| != 5 then None
    else if t[0] != "1" || t[3] != "NACK" || !("ERR=" <= t[4]) || |t[1]| >= NODE_ID_SIZE || |t[2]| != 6 then None
    else
      match ParseUint32(t[2])
      case None => None
      case Some(sequence) =>
        if |t[4]| == 4 || |t[4][4..]| >= NODE_ID_SIZE then None
        else Some(NackMessage(t[1], sequence, t[4][4..]))
  }

  function MessageTypeOf(payload: string): MessageType {
    var t := Tokens(CString(payload));
    if |t| < 4 then UnknownType
    else if t[3] == "DATA" then DataType
    else if t[3] == "CMD" then CmdType
    else if t[3] == "ACK" then AckType
    else if t[3] == "NACK" then NackType
    else UnknownType
  }

  // ---------------------------------------------------------------- the decoders

  lemma SkipComma(text: string, i: nat)
    requires i < |text| && text[i] == ','
    ensures Tokens(text[i..]) == Tokens(text[i + 1..])
  {
    assert text[i..][1..] == text[i + 1..];
  }

  lemma TakeToken(text: string, i: nat, j: nat)
    requires i < j <= |text| && ',' !in text[i..j] && (j < |text| ==> text[j] == ',')
    ensures Tokens(text[i..]) == [text[i..j]] + Tokens(text[j..])
  {
    var rest := text[i..];
    assert rest[..j - i] == text[i..j] && rest[j - i..] == text[j..];
    assert rest[0] == text[i..j][0];
    FindUnique(rest, ',', j - i);
  }

  /** One strtok_r call from position start. */
  method Strtok(text: string, start: nat) returns (token: Option<string>, next: nat)
    requires start <= |text|
    ensures next <= |text|
    ensures token.Some? ==> Tokens(text[start..]) == [token.value] + Tokens(text[next..])
    ensures token.None? ==> Tokens(text[start..]) == []
  {
    next := start;
    while next < |text| && text[next] == ','
      invariant start <= next <= |text|
      invariant Tokens(text[next..]) == Tokens(text[start..])
    {
      hide Tokens;
      SkipComma(text, next);
      next := next + 1;
    }
    if next == |text| {
      return None, next;
    }
    hide Tokens;
    var begin := next;
    while next < |text| && text[next] != ','
      invariant begin <= next <= |text|
      invariant ',' !in text[begin..next]
      invariant next < |text| && begin == next ==> text[next] != ','
    {
      assert text[begin..next + 1] == text[begin..next] + [text[next]];
      next := next + 1;
    }
    TakeToken(text, begin, next);
    token := Some(text[begin..next]);
  }

  /** Collects up to limit tokens; more says that another token follows. */
  method CollectTokens(text: string, limit: nat) returns (tokens: seq<string>, more: bool)
    ensures tokens == if |Tokens(text)| <= limit then Tokens(text) else Tokens(text)[..limit]
    ensures more <==> |Tokens(text)| > limit
  {
    hide Tokens;
    tokens := [];
    assert text[0..] == text;
    var token, next: nat := Strtok(text, 0);
    while token.Some? && |tokens| < limit
      invariant next <= |text| && |tokens| <= limit
      invariant Tokens(text) == tokens + (if token.Some? then [token.value] + Tokens(text[next..]) else [])
      decreases limit - |tokens|
    {
      tokens := tokens + [token.value];
      token, next := Strtok(text, next);
    }
    more := token.Some?;
  }

  method ParseKvPayload(payload: string, kind: string) returns (r: Option<KvMessage>)
    ensures r == DecodeKv(payload, kind)
  {
    hide Tokens, ParseUint32, ParseField, CString;
    var text := CString(payload);
    var tokens, more := CollectTokens(text, 4 + FRAME_DATA_MAX_FIELDS);
    if |tokens| < 4 || more {
      return None;
    }
    if tokens[0] != "1" || tokens[3] != kind {
      return None;
    }
    if |tokens[1]| >= NODE_ID_SIZE || |tokens[2]| != 6 {
      return None;
    }
    var sequence := ParseUint32(tokens[2]);
    if sequence.None? {
      return None;
    }
    var fields := [];
    for i := 4 to |tokens|
      invariant ParseFields(tokens[4..i]) == Some(fields)
    {
      assert tokens[4..i + 1][i - 4] == tokens[i];
      assert tokens[4..i + 1][..i - 4] == tokens[4..i];
      var field := ParseField(tokens[i]);
      if field.None? {
        assert tokens[4..][..i + 1 - 4] == tokens[4..i + 1];
        FailedFieldFails(tokens[4..], i + 1 - 4);
        return None;
      }
      fields := fields + [field.value];
    }
    assert tokens[4..|tokens|] == tokens[4..];
    return Some(KvMessage(tokens[1], sequence.value, fields));
  }

  lemma {:induction false} FailedFieldFails(tokens: seq<string>, n: nat)
    requires forall i :: 0 <= i < |tokens| ==> '\0' !in tokens[i]
    requires n <= |tokens| && ParseFields(tokens[..n]).None?
    ensures ParseFields(tokens).None?
    decreases |tokens|
  {
    if n < |tokens| {
      assert tokens[..|tokens| - 1][..n] == tokens[..n];
      FailedFieldFails(tokens[..|tokens| - 1], n);
    } else {
      assert tokens[..n] == tokens;
    }
  }

  method FrameDecodeNack(payload: string) returns (r: Option<NackMessage>)
    ensures r == DecodeNack(payload)
  {
    var text := CString(payload);
    var tokens, more := CollectTokens(text, 5);
    if |tokens| != 5 || more {
      return None;
    }
    if tokens[0] != "1" || tokens[3] != "NACK" {
      return None;
    }
    if !("ERR=" <= tokens[4]) {
      return None;
    }
    if |tokens[1]| >= NODE_ID_SIZE || |tokens[2]| != 6 {
      return None;
    }
    var sequence := ParseUint32(tokens[2]);
    if sequence.None? {
      return None;
    }
    var error := tokens[4][4..];
    if error == "" || |error| >= NODE_ID_SIZE {
      return None;
    }
    return Some(NackMessage(tokens[1], sequence.value, error));
  }

  method FrameGetMessageType(payload: string) returns (kind: MessageType)
    ensures kind == MessageTypeOf(payload)
  {
    var text := CString(payload);
    assert text[0..] == text;
    var token, next: nat := Strtok(text, 0);
    var count := 0;
    while token.Some? && count < 3
      invariant next <= |text| && count <= 3 && count <= |Tokens(text)|
      invariant Tokens(text)[count..] == if token.Some? then [token.value] + Tokens(text[next..]) else []
      decreases 3 - count
    {
      count := count + 1;
      token, next := Strtok(text, next);
    }
    match token {
      case None => return UnknownType;
      case Some(t) =>
        assert Tokens(text)[3..][0] == t;
        if t == "DATA" { return DataType; }
        if t == "CMD" { return CmdType; }
        if t == "ACK" { return AckType; }
        if t == "NACK" { return NackType; }
        return UnknownType;
    }
  }
}
