/** What the frame decoders accept, stated on the text of the payload. */
module FrameGrammar {
  import opened Text
  import opened FrameFormat
  import opened FrameDecoder

  // ---------------------------------------------------------------- pieces between commas

  predicate Commas(s: string) {
    forall i :: 0 <= i < |s| ==> s[i] == ','
  }

  predicate IsPiece(p: string) {
    p != "" && ',' !in p
  }

  /** text consists of the pieces, in order, with one or more commas between them and any number around them. */
  ghost predicate Separated(text: string, pieces: seq<string>)
    decreases |pieces|
  {
    if pieces == [] then Commas(text) else
      exists n: nat :: PieceAt(text, n, pieces[0]) && Separated(text[n + |pieces[0]|..], pieces[1..])
  }

  /** After n commas stands the piece, and a comma or the end behind it. */
  predicate PieceAt(text: string, n: nat, p: string) {
    && IsPiece(p) && n + |p| <= |text|
    && Commas(text[..n]) && text[n..n + |p|] == p
    && (n + |p| < |text| ==> text[n + |p|] == ',')
  }

  lemma {:induction false} CommasNoTokens(s: string)
    requires Commas(s)
    ensures Tokens(s) == []
    decreases |s|
  {
    if s != "" {
      CommasNoTokens(s[1..]);
    }
  }

  lemma {:induction false} SkipCommas(text: string, n: nat)
    requires n <= |text| && Commas(text[..n])
    ensures Tokens(text) == Tokens(text[n..])
    decreases n
  {
    if n == 0 {
      assert text[0..] == text;
    } else {
      assert text[..n][0] == ',';
      assert text[1..][..n - 1] == text[..n][1..];
      SkipCommas(text[1..], n - 1);
      assert text[1..][n - 1..] == text[n..];
    }
  }

  lemma PieceIsToken(text: string, n: nat, p: string)
    requires PieceAt(text, n, p)
    ensures Tokens(text) == [p] + Tokens(text[n + |p|..])
  {
    SkipCommas(text, n);
    TakeToken(text, n, n + |p|);
    hide Tokens;
  }

  lemma {:induction false} SeparatedAreTokens(text: string, pieces: seq<string>)
    requires Separated(text, pieces)
    ensures Tokens(text) == pieces
    decreases |pieces|
  {
    if pieces == [] {
      CommasNoTokens(text);
    } else {
      hide Tokens, PieceAt, Separated;
      var n := FirstPiece(text, pieces);
      PieceIsToken(text, n, pieces[0]);
      SeparatedAreTokens(text[n + |pieces[0]|..], pieces[1..]);
      assert [pieces[0]] + pieces[1..] == pieces;
    }
  }

  lemma FirstPiece(text: string, pieces: seq<string>) returns (n: nat)
    requires pieces != [] && Separated(text, pieces)
    ensures n + |pieces[0]| <= |text| && PieceAt(text, n, pieces[0]) && Separated(text[n + |pieces[0]|..], pieces[1..])
  {
    n :| PieceAt(text, n, pieces[0]) && Separated(text[n + |pieces[0]|..], pieces[1..]);
  }

  lemma {:induction false} TokensAreSeparated(text: string)
    ensures Separated(text, Tokens(text))
    decreases |text|
  {
    if text == "" {
    } else if text[0] == ',' {
      TokensAreSeparated(text[1..]);
      OneMoreComma(text, Tokens(text[1..]));
    } else {
      var k := Find(text, ',');
      TokensAreSeparated(text[k..]);
      var pieces := Tokens(text);
      assert pieces == [text[..k]] + Tokens(text[k..]);
      assert pieces[1..] == Tokens(text[k..]);
      assert text[0..0 + k] == text[..k];
      assert PieceAt(text, 0, pieces[0]);
    }
  }

  lemma OneMoreComma(text: string, pieces: seq<string>)
    requires text != "" && text[0] == ',' && Separated(text[1..], pieces)
    ensures Separated(text, pieces)
  {
    if pieces == [] {
      assert forall i :: 0 < i < |text| ==> text[i] == text[1..][i - 1];
    } else {
      var n: nat :| PieceAt(text[1..], n, pieces[0]) && Separated(text[1..][n + |pieces[0]|..], pieces[1..]);
      assert text[1..][n + |pieces[0]|..] == text[n + 1 + |pieces[0]|..];
      CommaAndPiece(text, n, pieces[0]);
      assert PieceAt(text, n + 1, pieces[0]);
    }
  }

  lemma CommaAndPiece(text: string, n: nat, p: string)
    requires text != "" && text[0] == ',' && PieceAt(text[1..], n, p)
    ensures PieceAt(text, n + 1, p)
  {
    var rest := text[1..];
    assert text[n + 1..n + 1 + |p|] == rest[n..n + |p|];
    var before := text[..n + 1];
    forall i | 0 <= i < |before|
      ensures before[i] == ','
    {
      assert i > 0 ==> before[i] == rest[..n][i - 1];
    }
  }

  /** strtok_r with a comma finds exactly the pieces. */
  lemma TokensIff(text: string, pieces: seq<string>)
    ensures Tokens(text) == pieces <==> Separated(text, pieces)
  {
    hide Tokens, Separated;
    TokensAreSeparated(text);
    if Separated(text, pieces) {
      SeparatedAreTokens(text, pieces);
    }
  }

  // ---------------------------------------------------------------- numbers

  /** Blank, tab, line feed, vertical tab, form feed, carriage return. */
  predicate Blank(c: char) {
    c == ' ' || c == '\t' || c == '\n' || c == '\U{0B}' || c == '\U{0C}' || c == '\r'
  }

  predicate Spaces(s: string) {
    forall i :: 0 <= i < |s| ==> Blank(s[i])
  }

  lemma BlankIff(c: char)
    ensures Blank(c) <==> IsSpace(c)
  {
    assert c == '\U{0B}' <==> c as int == 11;
    assert c == '\U{0C}' <==> c as int == 12;
  }

  /** The value that strtoul gives a sign and digits; a minus sign counts down from 2^64. */
  function Wrapped(sign: string, v: nat): int {
    if sign == "-" && v > 0 then 0x1_0000_0000_0000_0000 - v else v
  }

  ghost predicate ReadsAs(text: string, n: nat, spaces: string, sign: string, digits: string) {
    && text == spaces + sign + digits
    && Spaces(spaces) && sign in {"", "+", "-"} && digits != "" && AllDigits(digits)
    && Value(digits) < 0x1_0000_0000_0000_0000
    && n == Wrapped(sign, Value(digits)) && n < 0x1_0000_0000
  }

  /** The whole text is blanks, an optional sign and digits, and its value fits 32 bits. */
  ghost predicate StrtoulReads(text: string, n: nat) {
    exists spaces, sign, digits :: ReadsAs(text, n, spaces, sign, digits)
  }

  lemma {:induction false} SkipSpaces(spaces: string, rest: string)
    requires Spaces(spaces) && (rest != "" ==> !IsSpace(rest[0]))
    ensures SkipSpace(spaces + rest) == rest
    decreases |spaces|
  {
    if spaces == "" {
      assert spaces + rest == rest;
    } else {
      BlankIff(spaces[0]);
      assert (spaces + rest)[1..] == spaces[1..] + rest;
      SkipSpaces(spaces[1..], rest);
    }
  }

  lemma {:induction false} LeadingSpaces(s: string) returns (spaces: string)
    ensures Spaces(spaces) && s == spaces + SkipSpace(s)
    decreases |s|
  {
    hide Blank, IsSpace;
    if s != "" && IsSpace(s[0]) {
      BlankIff(s[0]);
      var rest := LeadingSpaces(s[1..]);
      spaces := [s[0]] + rest;
      assert s == [s[0]] + s[1..];
    } else {
      spaces := "";
    }
  }

  lemma ReadIsParsed(text: string, n: nat, spaces: string, sign: string, digits: string)
    requires ReadsAs(text, n, spaces, sign, digits)
    ensures ParseUint32(text) == Some(n)
  {
    var s := sign + digits;
    assert text == spaces + s;
    assert s[0] == if sign == "" then digits[0] else sign[0];
    SkipSpaces(spaces, s);
    hide SkipSpace, Spaces;
    assert sign != "" ==> s[1..] == digits;
    assert sign == "" ==> s == digits && IsDigit(s[0]);
  }

  lemma ParsedIsRead(text: string)
    requires ParseUint32(text).Some?
    ensures StrtoulReads(text, ParseUint32(text).value)
  {
    var spaces := LeadingSpaces(text);
    var s := SkipSpace(text);
    hide SkipSpace, Spaces;
    var sign := if s != "" && (s[0] == '-' || s[0] == '+') then [s[0]] else "";
    var digits := if sign != "" then s[1..] else s;
    assert s == sign + digits;
    assert text == spaces + sign + digits;
    assert ReadsAs(text, ParseUint32(text).value, spaces, sign, digits);
  }

  lemma NumberIff(text: string, n: nat)
    ensures ParseUint32(text) == Some(n) <==> StrtoulReads(text, n)
  {
    hide ParseUint32, ReadsAs;
    if ParseUint32(text) == Some(n) {
      ParsedIsRead(text);
    }
    if StrtoulReads(text, n) {
      var spaces, sign, digits :| ReadsAs(text, n, spaces, sign, digits);
      ReadIsParsed(text, n, spaces, sign, digits);
    }
  }

  // ---------------------------------------------------------------- fields

  /** A key without an equals sign, the first equals sign, and a value, neither of them empty. */
  ghost predicate FieldPiece(piece: string, f: Field) {
    piece == f.key + "=" + f.value && f.key != "" && f.value != "" && '=' !in f.key
  }

  ghost predicate FieldPieces(pieces: seq<string>, fields: seq<Field>) {
    |pieces| == |fields| && forall i :: 0 <= i < |fields| ==> FieldPiece(pieces[i], fields[i])
  }

  lemma FieldIff(piece: string, f: Field)
    requires '\0' !in piece
    ensures ParseField(piece) == Some(f) <==> FieldPiece(piece, f)
  {
    var eq := Find(piece, '=');
    if FieldPiece(piece, f) {
      assert piece[..|f.key|] == f.key && piece[|f.key| + 1..] == f.value;
      FindUnique(piece, '=', |f.key|);
    }
    if ParseField(piece) == Some(f) {
      assert piece == piece[..eq] + "=" + piece[eq + 1..];
    }
  }

  lemma {:induction false} FieldsIff(pieces: seq<string>, fields: seq<Field>)
    requires forall i :: 0 <= i < |pieces| ==> '\0' !in pieces[i]
    ensures ParseFields(pieces) == Some(fields) <==> FieldPieces(pieces, fields)
    decreases |pieces|
  {
    hide ParseField, FieldPiece;
    if pieces == [] {
    } else {
      var n := |pieces| - 1;
      if |fields| == |pieces| {
        FieldsIff(pieces[..n], fields[..n]);
        FieldIff(pieces[n], fields[n]);
        LastField(pieces, fields);
        assert fields == fields[..n] + [fields[n]];
      }
      LastParsed(pieces, fields);
    }
  }

  lemma LastField(pieces: seq<string>, fields: seq<Field>)
    requires pieces != [] && |fields| == |pieces|
    ensures var n := |pieces| - 1;
            FieldPieces(pieces, fields) <==> FieldPieces(pieces[..n], fields[..n]) && FieldPiece(pieces[n], fields[n])
  {
    hide FieldPiece;
    var n := |pieces| - 1;
    assert forall i :: 0 <= i < n ==> pieces[..n][i] == pieces[i] && fields[..n][i] == fields[i];
  }

  lemma LastParsed(pieces: seq<string>, fields: seq<Field>)
    requires pieces != [] && forall i :: 0 <= i < |pieces| ==> '\0' !in pieces[i]
    ensures var n := |pieces| - 1;
            ParseFields(pieces) == Some(fields) <==>
            |fields| == |pieces| && ParseFields(pieces[..n]) == Some(fields[..n]) && ParseField(pieces[n]) == Some(fields[n])
  {
    hide ParseField;
    var n := |pieces| - 1;
    if ParseFields(pieces) == Some(fields) {
      assert fields[..n] == ParseFields(pieces[..n]).value;
    }
    if |fields| == |pieces| {
      assert fields == fields[..n] + [fields[n]];
    }
  }

  // ---------------------------------------------------------------- the three decoders

  /** Version, identifier, six-character sequence, type, and at most sixteen fields. */
  ghost predicate KvPayload(text: string, kind: string, m: KvMessage, number: string, fieldPieces: seq<string>) {
    && Separated(text, ["1", m.id, number, kind] + fieldPieces)
    && |number| == 6 && StrtoulReads(number, m.sequence)
    && |m.fields| <= 16 && FieldPieces(fieldPieces, m.fields)
  }

  /**
   * The DATA, CMD and ACK decoder accepts a payload as m if and only if its text, up to its first NUL and up to extra
   * commas, is version 1, the identifier of at most 31 characters, six characters that read as the sequence, the type
   * and at most sixteen fields.
   */
  lemma KvAcceptedIff(payload: string, kind: string, m: KvMessage)
    ensures DecodeKv(payload, kind) == Some(m)
            <==> exists number, fieldPieces :: KvPayload(CString(payload), kind, m, number, fieldPieces)
  {
    hide Tokens, Separated, StrtoulReads, FieldPieces, ParseFields, ParseUint32, CString;
    var text := CString(payload);
    var t := Tokens(text);
    if DecodeKv(payload, kind) == Some(m) {
      NumberIff(t[2], m.sequence);
      FieldsIff(t[4..], m.fields);
      TokensIff(text, ["1", m.id, t[2], kind] + t[4..]);
      assert t == ["1", m.id, t[2], kind] + t[4..];
      assert KvPayload(text, kind, m, t[2], t[4..]);
    }
    if exists number, fieldPieces :: KvPayload(text, kind, m, number, fieldPieces) {
      var number, fieldPieces :| KvPayload(text, kind, m, number, fieldPieces);
      KvPayloadDecodes(payload, kind, m, number, fieldPieces);
    }
  }

  lemma FieldPiecesLength(pieces: seq<string>, fields: seq<Field>)
    requires FieldPieces(pieces, fields)
    ensures |pieces| == |fields|
  {
  }

  lemma KvPayloadDecodes(payload: string, kind: string, m: KvMessage, number: string, fieldPieces: seq<string>)
    requires KvPayload(CString(payload), kind, m, number, fieldPieces)
    ensures DecodeKv(payload, kind) == Some(m)
  {
    hide Tokens, Separated, StrtoulReads, FieldPieces, ParseFields, ParseUint32, CString;
    var text := CString(payload);
    var t := ["1", m.id, number, kind] + fieldPieces;
    TokensIff(text, t);
    assert Tokens(text) == t;
    FieldPiecesLength(fieldPieces, m.fields);
    assert t[4..] == fieldPieces && t[2] == number;
    assert forall i :: 0 <= i < |t| ==> '\0' !in Tokens(text)[i];
    assert forall i :: 0 <= i < |fieldPieces| ==> fieldPieces[i] == t[i + 4];
    NumberIff(number, m.sequence);
    FieldsIff(fieldPieces, m.fields);
  }

  ghost predicate NackPayload(text: string, m: NackMessage, number: string) {
    && Separated(text, ["1", m.nodeId, number, "NACK", "ERR=" + m.error])
    && |number| == 6 && StrtoulReads(number, m.sequence) && m.error != ""
  }

  /** The same for NACK: the only field is ERR, with a text of one to 31 characters, equals signs allowed. */
  lemma NackAcceptedIff(payload: string, m: NackMessage)
    ensures DecodeNack(payload) == Some(m) <==> exists number :: NackPayload(CString(payload), m, number)
  {
    hide Tokens, Separated, StrtoulReads, ParseUint32, CString;
    var text := CString(payload);
    var t := Tokens(text);
    if DecodeNack(payload) == Some(m) {
      NumberIff(t[2], m.sequence);
      assert t[4] == "ERR=" + t[4][4..];
      assert t == ["1", m.nodeId, t[2], "NACK", "ERR=" + m.error];
      TokensIff(text, t);
      assert NackPayload(text, m, t[2]);
    }
    if exists number :: NackPayload(text, m, number) {
      var number :| NackPayload(text, m, number);
      var pieces := ["1", m.nodeId, number, "NACK", "ERR=" + m.error];
      TokensIff(text, pieces);
      NumberIff(number, m.sequence);
      assert pieces[4][4..] == m.error;
    }
  }

  /** The type is what the fourth piece says, whatever else the payload holds. */
  lemma TypeIff(payload: string, pieces: seq<string>)
    requires Separated(CString(payload), pieces)
    ensures MessageTypeOf(payload) == DataType <==> |pieces| >= 4 && pieces[3] == "DATA"
    ensures MessageTypeOf(payload) == CmdType <==> |pieces| >= 4 && pieces[3] == "CMD"
    ensures MessageTypeOf(payload) == AckType <==> |pieces| >= 4 && pieces[3] == "ACK"
    ensures MessageTypeOf(payload) == NackType <==> |pieces| >= 4 && pieces[3] == "NACK"
  {
    hide Tokens, Separated, CString;
    TokensIff(CString(payload), pieces);
  }
}
