/** Builder, stream parser and decoder together. */
module FrameRoundTrip {
  import opened Text
  import opened FrameFormat
  import opened FrameBuilder
  import opened FrameDecoder
  import opened FrameParser
  import opened FrameStream

  // ---------------------------------------------------------------- tokens of a printed payload

  lemma TokensUnfold(s: string)
    ensures Tokens(s) == if s == "" then [] else if s[0] == ',' then Tokens(s[1..])
                         else [s[..Find(s, ',')]] + Tokens(s[Find(s, ',')..])
  {
  }

  lemma {:induction false} TokensSplit(s: string, t: string)
    ensures Tokens(s + "," + t) == Tokens(s) + Tokens(t)
    decreases |s|
  {
    hide Tokens;
    var whole := s + "," + t;
    TokensUnfold(s);
    TokensUnfold(whole);
    if s == "" {
      assert whole[1..] == t;
    } else if s[0] == ',' {
      assert whole[1..] == s[1..] + "," + t;
      TokensSplit(s[1..], t);
    } else {
      var k := Find(s, ',');
      assert whole[..k] == s[..k];
      FindUnique(whole, ',', k);
      assert whole[k..] == s[k..] + "," + t;
      TokensSplit(s[k..], t);
    }
  }

  lemma SingleToken(s: string)
    requires s != "" && ',' !in s
    ensures Tokens(s) == [s]
  {
    FindUnique(s, ',', |s|);
    assert s[|s|..] == "" && s[..|s|] == s;
  }

  function FieldToken(f: Field): string {
    f.key + "=" + f.value
  }

  function FieldTokens(fields: seq<Field>): (tokens: seq<string>)
    ensures |tokens| == |fields|
    ensures forall i :: 0 <= i < |tokens| ==> '\0' !in tokens[i]
  {
    if fields == [] then [] else FieldTokens(fields[..|fields| - 1]) + [FieldToken(fields[|fields| - 1])]
  }

  lemma {:induction false} FieldsTextTokens(head: string, fields: seq<Field>)
    requires FieldsValid(fields)
    ensures Tokens(head + FieldsText(fields)) == Tokens(head) + FieldTokens(fields)
    decreases |fields|
  {
    if fields == [] {
      assert head + "" == head;
    } else {
      var init, last := fields[..|fields| - 1], fields[|fields| - 1];
      assert FieldValid(last);
      LastFieldText(head, fields);
      assert ',' !in FieldToken(last) && FieldToken(last) != "";
      hide Tokens, FieldsText, FieldToken, FieldValid;
      FieldsTextTokens(head, init);
      TokensSplit(head + FieldsText(init), FieldToken(last));
      SingleToken(FieldToken(last));
      assert Tokens(head) + FieldTokens(init) + [FieldToken(last)] == Tokens(head) + (FieldTokens(init) + [FieldToken(last)]);
    }
  }

  lemma LastFieldText(head: string, fields: seq<Field>)
    requires fields != []
    ensures var n := |fields| - 1;
            head + FieldsText(fields) == (head + FieldsText(fields[..n])) + "," + FieldToken(fields[n])
  {
    var before, f := FieldsText(fields[..|fields| - 1]), fields[|fields| - 1];
    assert FieldsText(fields) == before + "," + f.key + "=" + f.value;
    hide FieldsText;
    Regroup(head, before, f.key, f.value);
  }

  lemma Regroup(head: string, before: string, key: string, value: string)
    ensures head + (before + "," + key + "=" + value) == (head + before) + "," + (key + "=" + value)
  {
    var token := key + "=" + value;
    assert before + "," + key + "=" + value == before + ("," + token);
    assert head + (before + ("," + token)) == (head + before) + ("," + token);
    assert (head + before) + ("," + token) == (head + before) + "," + token;
  }

  lemma DigitsArePlain(s: string)
    requires AllDigits(s)
    ensures forall c :: c in s ==> IsDigit(c)
  {
  }

  lemma HeaderTokens(id: string, sequence: nat, kind: string)
    requires IdValid(id) && kind != "" && ',' !in kind
    ensures Tokens(Header(id, sequence, kind)) == ["1", id, Pad6(sequence % 1000000), kind]
  {
    hide IsDigit, Tokens;
    var number := Pad6(sequence % 1000000);
    DigitsArePlain(number);
    CommaNoDigit();
    var h1 := "1," + id;
    var h2 := h1 + "," + number;
    assert Header(id, sequence, kind) == h2 + "," + kind;
    assert h1 == "1" + "," + id;
    TokensSplit("1", id);
    TokensSplit(h1, number);
    TokensSplit(h2, kind);
    SingleToken("1");
    SingleToken(id);
    SingleToken(number);
    SingleToken(kind);
  }

  lemma CommaNoDigit()
    ensures !IsDigit(',') && !IsDigit('\0') && !IsDigit('@') && !IsDigit('\n')
  {
  }

  lemma Pad6Parses(n: nat)
    requires n < 1000000
    ensures ParseUint32(Pad6(n)) == Some(n)
  {
    var s := Pad6(n);
    assert IsDigit(s[0]);
    assert !IsSpace(s[0]);
    assert SkipSpace(s) == s;
  }

  lemma FieldTokenParses(f: Field)
    requires FieldValid(f)
    ensures ParseField(FieldToken(f)) == Some(f)
  {
    var kv := FieldToken(f);
    assert kv[..|f.key|] == f.key && kv[|f.key| + 1..] == f.value;
    FindUnique(kv, '=', |f.key|);
  }

  lemma {:induction false} FieldTokensParse(fields: seq<Field>)
    requires FieldsValid(fields)
    ensures ParseFields(FieldTokens(fields)) == Some(fields)
    decreases |fields|
  {
    if fields == [] {
    } else {
      var init, last := fields[..|fields| - 1], fields[|fields| - 1];
      assert FieldValid(last);
      FieldTokensParse(init);
      FieldTokenParses(last);
      var tokens := FieldTokens(fields);
      assert tokens == FieldTokens(init) + [FieldToken(last)];
      assert tokens[..|tokens| - 1] == FieldTokens(init) && tokens[|tokens| - 1] == FieldToken(last);
      assert init + [last] == fields;
    }
  }

  // ---------------------------------------------------------------- printed payloads are legal payloads

  lemma {:induction false} FieldsTextPlain(fields: seq<Field>)
    requires FieldsValid(fields)
    ensures '\0' !in FieldsText(fields) && '@' !in FieldsText(fields) && '\n' !in FieldsText(fields)
    decreases |fields|
  {
    if fields == [] {
    } else {
      assert FieldValid(fields[|fields| - 1]);
      FieldsTextPlain(fields[..|fields| - 1]);
    }
  }

  ghost predicate Plain(s: string) {
    '\0' !in s && '@' !in s && '\n' !in s
  }

  lemma HeaderIsPayload(id: CStr, sequence: nat, kind: string, tail: string)
    requires IdValid(id) && Plain(kind) && Plain(tail)
    ensures Payload(Header(id, sequence, kind) + tail)
  {
    hide IsDigit;
    var number := Pad6(sequence % 1000000);
    DigitsArePlain(number);
    CommaNoDigit();
    assert Plain(number);
    var h := Header(id, sequence, kind);
    assert h == "1," + id + "," + number + "," + kind;
    assert Plain(h);
  }

  ghost predicate KvKind(kind: string) {
    kind == "DATA" || kind == "CMD" || kind == "ACK"
  }

  function TypeOfKind(kind: string): MessageType {
    if kind == "DATA" then DataType else if kind == "CMD" then CmdType else if kind == "ACK" then AckType else UnknownType
  }

  /** A printed payload decodes to what was printed exactly when its id fits the decoder's 32 byte field. */
  lemma KvDecodes(id: CStr, sequence: nat, kind: string, fields: seq<Field>)
    requires KvKind(kind) && IdValid(id) && FieldsValid(fields) && |fields| <= FRAME_DATA_MAX_FIELDS
    ensures DecodeKv(PayloadText(id, sequence, kind, fields), kind)
            == if |id| < NODE_ID_SIZE then Some(KvMessage(id, sequence % 1000000, fields)) else None
    ensures MessageTypeOf(PayloadText(id, sequence, kind, fields)) == TypeOfKind(kind)
    ensures Payload(PayloadText(id, sequence, kind, fields))
  {
    hide Tokens, ParseUint32, FieldsText, Header;
    var text := PayloadText(id, sequence, kind, fields);
    FieldsTextPlain(fields);
    HeaderIsPayload(id, sequence, kind, FieldsText(fields));
    FieldsTextTokens(Header(id, sequence, kind), fields);
    HeaderTokens(id, sequence, kind);
    var t := Tokens(text);
    assert t == ["1", id, Pad6(sequence % 1000000), kind] + FieldTokens(fields);
    assert t[4..] == FieldTokens(fields);
    Pad6Parses(sequence % 1000000);
    FieldTokensParse(fields);
  }

  lemma NackDecodes(nodeId: CStr, sequence: nat, error: CStr)
    requires IdValid(nodeId) && IdValid(error)
    ensures DecodeNack(NackText(nodeId, sequence, error))
            == if |nodeId| < NODE_ID_SIZE && |error| < NODE_ID_SIZE
               then Some(NackMessage(nodeId, sequence % 1000000, error)) else None
    ensures MessageTypeOf(NackText(nodeId, sequence, error)) == NackType
    ensures Payload(NackText(nodeId, sequence, error))
  {
    hide Tokens, ParseUint32, Header;
    var text := NackText(nodeId, sequence, error);
    var last := "ERR=" + error;
    var head := Header(nodeId, sequence, "NACK");
    assert text == head + "," + last;
    assert text == head + ("," + last);
    HeaderIsPayload(nodeId, sequence, "NACK", "," + last);
    TokensSplit(head, last);
    HeaderTokens(nodeId, sequence, "NACK");
    SingleToken(last);
    assert Tokens(text) == ["1", nodeId, Pad6(sequence % 1000000), "NACK", last];
    assert last[4..] == error;
    Pad6Parses(sequence % 1000000);
  }

  // ---------------------------------------------------------------- over the wire

  /** Building succeeds, or nothing is sent; whatever is built arrives, from any parser state and in any chunking. */
  lemma KvFrameRoundTrip(p: Progress, id: NodeId, sequence: nat, kind: string, fields: seq<Field>, chunks: seq<string>)
    requires Collectable(p.partial)
    requires KvKind(kind) && Buildable(FRAME_MAX_LEN, id, sequence, kind, fields)
    requires Joined(chunks) == Seal(PayloadText(id, sequence, kind, fields))
    ensures exists f: ParsedFrame ::
              && RunChunks(p, chunks).frames == p.frames + [f]
              && MessageTypeOf(f.payload) == TypeOfKind(kind)
              && DecodeKv(f.payload, kind) == Some(KvMessage(id, sequence % 1000000, fields))
  {
    hide DecodeKv, MessageTypeOf, RunChunks, Seal, PayloadText;
    var payload := PayloadText(id, sequence, kind, fields);
    KvDecodes(id, sequence, kind, fields);
    IntactFrameDelivered(p, payload, chunks);
    var f := ParsedFrame(Seal(payload), payload, Crc(payload), Crc(payload));
    assert f.payload == payload;
  }

  lemma NackFrameRoundTrip(p: Progress, nodeId: NodeId, sequence: nat, error: NodeId, chunks: seq<string>)
    requires Collectable(p.partial)
    requires IdValid(nodeId) && IdValid(error)
    requires Joined(chunks) == Seal(NackText(nodeId, sequence, error))
    ensures exists f: ParsedFrame ::
              && RunChunks(p, chunks).frames == p.frames + [f]
              && MessageTypeOf(f.payload) == NackType
              && DecodeNack(f.payload) == Some(NackMessage(nodeId, sequence % 1000000, error))
  {
    hide DecodeNack, MessageTypeOf, RunChunks;
    var payload := NackText(nodeId, sequence, error);
    NackDecodes(nodeId, sequence, error);
    assert |Seal(payload)| < FRAME_MAX_LEN;
    IntactFrameDelivered(p, payload, chunks);
    var f := ParsedFrame(Seal(payload), payload, Crc(payload), Crc(payload));
    assert f.payload == payload;
  }
}
