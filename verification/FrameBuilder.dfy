/** Printing DATA, CMD, ACK and NACK frames. */
module FrameBuilder {
  import opened Text
  import opened FrameFormat
  import Crc16

  datatype BuildError = ParamError | TooLong | NodeIdError

  datatype Built = Built(frame: string) | Refused(error: BuildError)

  // ---------------------------------------------------------------- the text of a payload

  predicate IdValid(id: string) {
    id != "" && '@' !in id && '*' !in id && ',' !in id && '\r' !in id && '\n' !in id
  }

  predicate TextValid(text: string) {
    IdValid(text) && '=' !in text
  }

  predicate FieldValid(f: Field) {
    TextValid(f.key) && TextValid(f.value)
  }

  predicate FieldsValid(fields: seq<Field>) {
    forall i :: 0 <= i < |fields| ==> FieldValid(fields[i])
  }

  function Header(id: string, sequence: nat, kind: string): string {
    "1," + id + "," + Pad6(sequence % 1000000) + "," + kind
  }

  function FieldsText(fields: seq<Field>): string {
    if fields == [] then ""
    else FieldsText(fields[..|fields| - 1]) + "," + fields[|fields| - 1].key + "=" + fields[|fields| - 1].value
  }

  function PayloadText(id: string, sequence: nat, kind: string, fields: seq<Field>): string {
    Header(id, sequence, kind) + FieldsText(fields)
  }

  function NackText(id: string, sequence: nat, error: string): string {
    Header(id, sequence, "NACK") + ",ERR=" + error
  }

  /** The exact condition for a frame to be printed. */
  predicate Buildable(outSize: nat, id: string, sequence: nat, kind: string, fields: seq<Field>) {
    && |fields| <= FRAME_DATA_MAX_FIELDS && IdValid(id) && FieldsValid(fields)
    && |PayloadText(id, sequence, kind, fields)| < FRAME_MAX_LEN
    && |Seal(PayloadText(id, sequence, kind, fields))| < outSize
  }

  lemma {:induction false} FieldsTextGrows(fields: seq<Field>, n: nat)
    requires n <= |fields|
    ensures |FieldsText(fields[..n])| <= |FieldsText(fields)|
    decreases |fields|
  {
    if n < |fields| {
      var init := fields[..|fields| - 1];
      assert init[..n] == fields[..n];
      FieldsTextGrows(init, n);
    } else {
      assert fields[..n] == fields;
    }
  }

  // ---------------------------------------------------------------- the builders

  method NodeIdIsValid(nodeId: CStr) returns (valid: bool)
    ensures valid == IdValid(nodeId)
  {
    if nodeId == "" {
      return false;
    }
    for i := 0 to |nodeId|
      invariant '@' !in nodeId[..i] && '*' !in nodeId[..i] && ',' !in nodeId[..i]
      invariant '\r' !in nodeId[..i] && '\n' !in nodeId[..i]
    {
      if nodeId[i] in {'@', '*', ',', '\r', '\n'} {
        return false;
      }
      assert nodeId[..i + 1] == nodeId[..i] + [nodeId[i]];
    }
    assert nodeId[..|nodeId|] == nodeId;
    return true;
  }

  method FieldTextIsValid(text: CStr) returns (valid: bool)
    ensures valid == TextValid(text)
  {
    if text == "" {
      return false;
    }
    for i := 0 to |text|
      invariant '@' !in text[..i] && '*' !in text[..i] && ',' !in text[..i]
      invariant '\r' !in text[..i] && '\n' !in text[..i] && '=' !in text[..i]
    {
      if text[i] in {'@', '*', ',', '=', '\r', '\n'} {
        return false;
      }
      assert text[..i + 1] == text[..i] + [text[i]];
    }
    assert text[..|text|] == text;
    return true;
  }

  /** The final snprintf: checksum, envelope and the check against the output size. */
  method PrintFrame(outSize: nat, crcData: string) returns (r: Built)
    ensures r == if |Seal(crcData)| < outSize then Built(Seal(crcData)) else Refused(TooLong)
  {
    var crc := Crc16.Crc16CcittFalse(Octets(crcData));
    var frame := "@" + crcData + "*" + Hex4(crc as int) + "\r\n";
    if |frame| >= outSize {
      return Refused(TooLong);
    }
    return Built(frame);
  }

  lemma AppendField(id: string, sequence: nat, kind: string, fields: seq<Field>, i: nat)
    requires i < |fields|
    ensures PayloadText(id, sequence, kind, fields[..i + 1])
            == PayloadText(id, sequence, kind, fields[..i]) + ("," + fields[i].key + "=" + fields[i].value)
    ensures |PayloadText(id, sequence, kind, fields[..i + 1])| <= |PayloadText(id, sequence, kind, fields)|
  {
    assert fields[..i + 1][..i] == fields[..i];
    FieldsTextGrows(fields, i + 1);
  }

  /** A field that cannot be printed, reached before the text before it is too long. */
  ghost predicate InvalidReached(id: string, sequence: nat, kind: string, fields: seq<Field>, i: nat) {
    i < |fields| && !FieldValid(fields[i]) && |PayloadText(id, sequence, kind, fields[..i])| < FRAME_MAX_LEN
  }

  lemma PrefixGrows(id: string, sequence: nat, kind: string, fields: seq<Field>, i: nat, j: nat)
    requires i <= j <= |fields|
    ensures |PayloadText(id, sequence, kind, fields[..i])| <= |PayloadText(id, sequence, kind, fields[..j])|
  {
    assert fields[..j][..i] == fields[..i];
    FieldsTextGrows(fields[..j], i);
  }

  lemma TooLongFirst(id: string, sequence: nat, kind: string, fields: seq<Field>, n: nat)
    requires n <= |fields| && FieldsValid(fields[..n])
    requires |PayloadText(id, sequence, kind, fields[..n])| >= FRAME_MAX_LEN || n == |fields|
    ensures forall i: nat :: !InvalidReached(id, sequence, kind, fields, i)
  {
    hide FieldValid, PayloadText;
    assert forall i :: 0 <= i < n ==> fields[i] == fields[..n][i];
    forall i: nat | n <= i <= |fields|
      ensures |PayloadText(id, sequence, kind, fields[..n])| <= |PayloadText(id, sequence, kind, fields[..i])|
    {
      PrefixGrows(id, sequence, kind, fields, n, i);
    }
  }

  method BuildKvFrame(outSize: nat, id: CStr, sequence: nat, kind: string, fields: seq<Field>) returns (r: Built)
    requires outSize > 0
    ensures r.Built? <==> Buildable(outSize, id, sequence, kind, fields)
    ensures r.Built? ==> r.frame == Seal(PayloadText(id, sequence, kind, fields))
    ensures r == Refused(NodeIdError) <==> |fields| <= FRAME_DATA_MAX_FIELDS && !IdValid(id)
    ensures r == Refused(ParamError) <==>
              || |fields| > FRAME_DATA_MAX_FIELDS
              || (IdValid(id) && exists i: nat :: InvalidReached(id, sequence, kind, fields, i))
  {
    hide Seal, IdValid, FieldValid;
    if |fields| > FRAME_DATA_MAX_FIELDS {
      return Refused(ParamError);
    }
    var idOk := NodeIdIsValid(id);
    if !idOk {
      return Refused(NodeIdError);
    }
    var crcData := "1," + id + "," + Pad6(sequence % 1000000) + "," + kind;
    assert crcData == PayloadText(id, sequence, kind, fields[..0]);
    if |crcData| >= FRAME_MAX_LEN {
      TooLongFirst(id, sequence, kind, fields, 0);
      return Refused(TooLong);
    }
    hide PayloadText;
    for i := 0 to |fields|
      invariant FieldsValid(fields[..i])
      invariant crcData == PayloadText(id, sequence, kind, fields[..i]) && |crcData| < FRAME_MAX_LEN
    {
      var keyOk := FieldTextIsValid(fields[i].key);
      var valueOk := FieldTextIsValid(fields[i].value);
      FieldChecked(fields[i]);
      if !keyOk || !valueOk {
        assert InvalidReached(id, sequence, kind, fields, i);
        return Refused(ParamError);
      }
      AppendField(id, sequence, kind, fields, i);
      crcData := crcData + ("," + fields[i].key + "=" + fields[i].value);
      if |crcData| >= FRAME_MAX_LEN {
        assert fields[..i + 1] == fields[..i] + [fields[i]];
        TooLongFirst(id, sequence, kind, fields, i + 1);
        return Refused(TooLong);
      }
    }
    assert fields[..|fields|] == fields;
    TooLongFirst(id, sequence, kind, fields, |fields|);
    r := PrintFrame(outSize, crcData);
  }

  lemma FieldChecked(f: Field)
    ensures FieldValid(f) <==> TextValid(f.key) && TextValid(f.value)
  {
  }

  method BuildNack(outSize: nat, nodeId: CStr, sequence: nat, error: CStr) returns (r: Built)
    requires outSize > 0
    ensures r.Built? <==>
              && IdValid(nodeId) && IdValid(error) && |NackText(nodeId, sequence, error)| < FRAME_MAX_LEN
              && |Seal(NackText(nodeId, sequence, error))| < outSize
    ensures r.Built? ==> r.frame == Seal(NackText(nodeId, sequence, error))
    ensures r == Refused(NodeIdError) <==> !IdValid(nodeId)
    ensures r == Refused(ParamError) <==> IdValid(nodeId) && !IdValid(error)
  {
    var idOk := NodeIdIsValid(nodeId);
    if !idOk {
      return Refused(NodeIdError);
    }
    var errorOk := NodeIdIsValid(error);
    if !errorOk {
      return Refused(ParamError);
    }
    var crcNack := "1," + nodeId + "," + Pad6(sequence % 1000000) + ",NACK,ERR=" + error;
    assert crcNack == NackText(nodeId, sequence, error);
    if |crcNack| >= FRAME_MAX_LEN {
      return Refused(TooLong);
    }
    r := PrintFrame(outSize, crcNack);
  }
}
