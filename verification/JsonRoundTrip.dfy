/** Which messages survive being printed and read back. */
module JsonRoundTrip {
  import opened Text
  import opened FrameFormat
  import opened FrameDecoder
  import opened JsonScan
  import opened JsonObject
  import opened JsonMessage

  // ---------------------------------------------------------------- one member at a time

  lemma NoWhite(s: string)
    requires s != "" && !IsWhite(s[0])
    ensures SkipWhite(s) == s
  {
  }

  /** Key and colon in front of a value that starts with neither blank nor end of line. */
  lemma KeyColonRead(key: string, value: string)
    requires Balanced(key) && value != "" && !IsWhite(value[0])
    ensures KeyColon(Member(key, value)) == Some((key, value))
    ensures SkipWhite(Member(key, value)) == Member(key, value)
  {
    hide ScanString;
    var s := Member(key, value);
    assert s[1..] == key + "\"" + (":" + value);
    ScanQuotedIff(key, ":" + value);
    NoWhite(":" + value);
    assert (":" + value)[1..] == value;
    NoWhite(value);
  }

  /** The member loop takes one printed member and its separator. */
  lemma MemberRead(mode: Mode, key: string, value: string, rest: string, obj: JsonObject, next: JsonObject)
    requires Balanced(key) && value != "" && !IsWhite(value[0])
    requires MemberValue(mode, key, value + "," + rest, obj) == Some((next, "," + rest))
    ensures Members(mode, Member(key, value) + "," + rest, obj) == Members(mode, rest, next)
  {
    hide KeyColon, MemberValue, SkipWhite, Quoted;
    var s := Member(key, value) + "," + rest;
    assert s == Member(key, value + "," + rest);
    KeyColonRead(key, value + "," + rest);
    MemberStartsWithQuote(key, value + "," + rest);
    CommaSeparates(rest);
  }

  lemma LastMemberRead(mode: Mode, key: string, value: string, rest: string, obj: JsonObject, next: JsonObject)
    requires Balanced(key) && value != "" && !IsWhite(value[0])
    requires MemberValue(mode, key, value + "}" + rest, obj) == Some((next, "}" + rest))
    ensures Members(mode, Member(key, value) + "}" + rest, obj) == Some((next, rest))
  {
    hide KeyColon, MemberValue, SkipWhite, Quoted;
    var s := Member(key, value) + "}" + rest;
    assert s == Member(key, value + "}" + rest);
    KeyColonRead(key, value + "}" + rest);
    MemberStartsWithQuote(key, value + "}" + rest);
    BraceSeparates(rest);
  }

  lemma MemberStartsWithQuote(key: string, value: string)
    ensures Member(key, value) != "" && Member(key, value)[0] == '"'
  {
  }

  lemma CommaSeparates(rest: string)
    ensures Separator("," + rest) == More(rest)
  {
    NoWhite("," + rest);
    assert ("," + rest)[1..] == rest;
  }

  lemma BraceSeparates(rest: string)
    ensures Separator("}" + rest) == Done(rest)
  {
    NoWhite("}" + rest);
    assert ("}" + rest)[1..] == rest;
  }

  lemma StringRead(t: string, rest: string)
    requires Balanced(t)
    ensures ScanString((Quoted(t) + rest)[1..]) == Some((t, rest))
  {
    ScanQuotedIff(t, rest);
    assert (Quoted(t) + rest)[1..] == t + "\"" + rest;
  }

  // ---------------------------------------------------------------- the fields object

  ghost predicate FieldSurvives(f: Field) {
    f.key != "" && f.value != "" && Balanced(f.key) && Balanced(f.value)
  }

  ghost predicate FieldsSurvive(fields: seq<Field>) {
    |fields| <= FRAME_DATA_MAX_FIELDS && forall i :: 0 <= i < |fields| ==> FieldSurvives(fields[i])
  }

  /** One printed field in front of its separator. */
  lemma FieldRead(f: Field, tail: string, fields: seq<Field>)
    requires FieldSurvives(f) && |fields| < FRAME_DATA_MAX_FIELDS
    requires StartsWith(tail, ',') || StartsWith(tail, '}')
    ensures FieldMembers(FieldJson(f) + tail, fields)
            == if tail[0] == ',' then FieldMembers(tail[1..], fields + [f]) else Some((fields + [f], tail[1..]))
  {
    hide KeyColon, ScanString, SkipWhite, Quoted;
    var s := FieldJson(f) + tail;
    var value := Quoted(f.value) + tail;
    assert s == Member(f.key, value);
    QuotedStarts(f.value, tail);
    KeyColonRead(f.key, value);
    MemberStartsWithQuote(f.key, value);
    StringRead(f.value, tail);
    assert FieldValue(value) == Some((f.value, tail));
    assert AddField(fields, f.key, f.value) == Some(fields + [f]);
    assert tail == [tail[0]] + tail[1..];
    CommaSeparates(tail[1..]);
    BraceSeparates(tail[1..]);
  }

  lemma QuotedStarts(t: string, rest: string)
    ensures Quoted(t) + rest != "" && (Quoted(t) + rest)[0] == '"' && !IsWhite('"')
  {
  }

  lemma {:induction false} FieldsRead(fields: seq<Field>, rest: string, before: seq<Field>)
    requires forall i :: 0 <= i < |fields| ==> FieldSurvives(fields[i])
    requires |before| + |fields| <= FRAME_DATA_MAX_FIELDS
    ensures FieldMembers(FieldsJson(fields) + "}" + rest, before) == Some((before + fields, rest))
    decreases |fields|
  {
    hide FieldMembers, FieldJson;
    var s := FieldsJson(fields) + "}" + rest;
    if fields == [] {
      assert s == "}" + rest;
      NoFields(rest, before);
      assert before + fields == before;
    } else if |fields| == 1 {
      assert s == FieldJson(fields[0]) + ("}" + rest);
      FieldRead(fields[0], "}" + rest, before);
      assert before + fields == before + [fields[0]];
      assert ("}" + rest)[1..] == rest;
    } else {
      var tail := "," + (FieldsJson(fields[1..]) + "}" + rest);
      assert s == FieldJson(fields[0]) + tail;
      FieldRead(fields[0], tail, before);
      assert tail[1..] == FieldsJson(fields[1..]) + "}" + rest;
      FieldsRead(fields[1..], rest, before + [fields[0]]);
      assert before + [fields[0]] + fields[1..] == before + fields;
    }
  }

  lemma NoFields(rest: string, before: seq<Field>)
    ensures FieldMembers("}" + rest, before) == Some((before, rest))
  {
    NoWhite("}" + rest);
    assert ("}" + rest)[1..] == rest;
  }

  // ---------------------------------------------------------------- member values

  lemma FieldsMemberValue(mode: Mode, fields: seq<Field>, rest: string, obj: JsonObject)
    requires FieldsSurvive(fields) && obj.fields == []
    ensures MemberValue(mode, "fields", "{" + FieldsJson(fields) + "}" + rest, obj)
            == Some((obj.(fields := fields, foundFields := true), rest))
  {
    hide FieldMembers, FieldsJson;
    FieldsRead(fields, rest, []);
    assert ("{" + FieldsJson(fields) + "}" + rest)[1..] == FieldsJson(fields) + "}" + rest;
    assert [] + fields == fields;
  }

  lemma PrintedNumberRead(n: nat, rest: string)
    requires n < UINT32_RANGE
    ensures Uint32Number(Dec(n) + "," + rest) == Some((n, "," + rest))
  {
    hide Dec, Value, SkipTail;
    assert Dec(n) + "," + rest == Dec(n) + ("," + rest);
    CommaEndsNumber(rest);
    DigitsThen(Dec(n), "," + rest);
  }

  lemma SequenceMemberValue(mode: Mode, n: nat, rest: string, obj: JsonObject)
    requires n < UINT32_RANGE
    ensures MemberValue(mode, "seq", Dec(n) + "," + rest, obj) == Some((obj.(sequence := Some(n)), "," + rest))
  {
    hide Dec, Uint32Number;
    PrintedNumberRead(n, rest);
    var s := Dec(n) + "," + rest;
    assert s[0] == Dec(n)[0] && IsDigit(s[0]);
    CommaEndsNumber(rest);
  }

  lemma CommaEndsNumber(rest: string)
    ensures SkipTail("," + rest) == "," + rest && !IsDigit(',') && !IsDigit('-') && !IsDigit('"')
  {
  }

  lemma TextMemberValue(mode: Mode, key: string, t: string, rest: string, obj: JsonObject)
    requires key != "fields" && Balanced(t)
    ensures MemberValue(mode, key, Quoted(t) + rest, obj)
            == match if mode == ControlMode then ControlString(key, t, obj) else DataString(key, t, obj)
               case None => None
               case Some(next) => Some((next, rest))
  {
    hide ScanString, ControlString, DataString, Quoted;
    QuotedStarts(t, rest);
    StringRead(t, rest);
  }

  // ---------------------------------------------------------------- printed messages parse

  lemma TypeMemberValue(mode: Mode, kind: string, rest: string, obj: JsonObject)
    requires mode == DataMode ==> kind == "DATA"
    requires Balanced(kind) && |kind| < TYPE_SIZE && '\0' !in kind
    ensures MemberValue(mode, "type", Quoted(kind) + rest, obj) == Some((obj.(kind := Some(kind)), rest))
  {
    hide ScanString, Quoted;
    TextMemberValue(mode, "type", kind, rest, obj);
  }

  lemma NodeMemberValue(mode: Mode, id: NodeId, rest: string, obj: JsonObject)
    requires Balanced(id)
    ensures MemberValue(mode, "node", Quoted(id) + rest, obj) == Some((obj.(node := Some(id)), rest))
  {
    hide ScanString, Quoted;
    TextMemberValue(mode, "node", id, rest, obj);
  }

  lemma KeysAreBalanced()
    ensures Balanced("node") && Balanced("sender") && Balanced("seq") && Balanced("type") && Balanced("fields")
    ensures Balanced("error")
  {
    PlainIsBalanced("node");
    PlainIsBalanced("sender");
    PlainIsBalanced("seq");
    PlainIsBalanced("type");
    PlainIsBalanced("fields");
    PlainIsBalanced("error");
  }

  /** The quoted text printed for a member starts its value. */
  lemma QuotedValue(t: string)
    ensures Quoted(t) != "" && !IsWhite(Quoted(t)[0])
  {
  }

  lemma DecValue(n: nat)
    ensures Dec(n) != "" && !IsWhite(Dec(n)[0])
  {
    assert IsDigit(Dec(n)[0]);
  }

  // One printed member after the other, each leaving its value in the object.

  lemma NodeRead(mode: Mode, id: NodeId, rest: string, obj: JsonObject)
    requires Balanced(id)
    ensures Members(mode, Member("node", Quoted(id)) + "," + rest, obj) == Members(mode, rest, obj.(node := Some(id)))
  {
    hide Members, MemberValue, Member, Quoted;
    KeysAreBalanced();
    NodeMemberValue(mode, id, "," + rest, obj);
    QuotedValue(id);
    assert Quoted(id) + "," + rest == Quoted(id) + ("," + rest);
    MemberRead(mode, "node", Quoted(id), rest, obj, obj.(node := Some(id)));
  }

  lemma SenderRead(id: NodeId, rest: string, obj: JsonObject)
    requires Balanced(id)
    ensures Members(ControlMode, Member("sender", Quoted(id)) + "," + rest, obj)
            == Members(ControlMode, rest, obj.(sender := Some(id)))
  {
    hide Members, MemberValue, Member, Quoted;
    KeysAreBalanced();
    TextMemberValue(ControlMode, "sender", id, "," + rest, obj);
    QuotedValue(id);
    assert Quoted(id) + "," + rest == Quoted(id) + ("," + rest);
    MemberRead(ControlMode, "sender", Quoted(id), rest, obj, obj.(sender := Some(id)));
  }

  lemma SequenceRead(mode: Mode, n: nat, rest: string, obj: JsonObject)
    requires n < UINT32_RANGE
    ensures Members(mode, Member("seq", Dec(n)) + "," + rest, obj) == Members(mode, rest, obj.(sequence := Some(n)))
  {
    hide Members, MemberValue, Member, Dec;
    KeysAreBalanced();
    SequenceMemberValue(mode, n, rest, obj);
    DecValue(n);
    MemberRead(mode, "seq", Dec(n), rest, obj, obj.(sequence := Some(n)));
  }

  lemma TypeRead(mode: Mode, kind: string, rest: string, obj: JsonObject)
    requires mode == DataMode ==> kind == "DATA"
    requires Balanced(kind) && |kind| < TYPE_SIZE && '\0' !in kind
    ensures Members(mode, Member("type", Quoted(kind)) + "," + rest, obj) == Members(mode, rest, obj.(kind := Some(kind)))
  {
    hide Members, MemberValue, Member, Quoted;
    KeysAreBalanced();
    TypeMemberValue(mode, kind, "," + rest, obj);
    QuotedValue(kind);
    assert Quoted(kind) + "," + rest == Quoted(kind) + ("," + rest);
    MemberRead(mode, "type", Quoted(kind), rest, obj, obj.(kind := Some(kind)));
  }

  lemma FieldsReadLast(mode: Mode, fields: seq<Field>, rest: string, obj: JsonObject)
    requires FieldsSurvive(fields) && obj.fields == []
    ensures Members(mode, FieldsMember(fields) + "}" + rest, obj)
            == Some((obj.(fields := fields, foundFields := true), rest))
  {
    hide Members, MemberValue, Member, FieldsJson, FieldsSurvive;
    KeysAreBalanced();
    var braced := "{" + FieldsJson(fields) + "}";
    FieldsMemberValue(mode, fields, "}" + rest, obj);
    assert "{" + FieldsJson(fields) + "}" + ("}" + rest) == braced + "}" + rest;
    LastMemberRead(mode, "fields", braced, rest, obj, obj.(fields := fields, foundFields := true));
  }

  lemma ErrorReadLast(error: NodeId, rest: string, obj: JsonObject)
    requires error != "" && Balanced(error)
    ensures Members(ControlMode, Member("error", Quoted(error)) + "}" + rest, obj)
            == Some((obj.(error := Some(error)), rest))
  {
    hide Members, MemberValue, Member, Quoted;
    KeysAreBalanced();
    TextMemberValue(ControlMode, "error", error, "}" + rest, obj);
    QuotedValue(error);
    assert Quoted(error) + "}" + rest == Quoted(error) + ("}" + rest);
    LastMemberRead(ControlMode, "error", Quoted(error), rest, obj, obj.(error := Some(error)));
  }

  lemma Opens(mode: Mode, body: string)
    ensures Parse(mode, "{" + body) == Members(mode, body, EMPTY_OBJECT)
  {
    NoWhite("{" + body);
    assert ("{" + body)[1..] == body;
  }

  /** seq, type and fields, the part all key-value messages share. */
  function TailText(n: nat, kind: string, fields: seq<Field>, rest: string): string {
    Member("seq", Dec(n)) + "," + (Member("type", Quoted(kind)) + "," + (FieldsMember(fields) + "}" + rest))
  }

  lemma TailParses(mode: Mode, n: nat, kind: string, fields: seq<Field>, rest: string, obj: JsonObject)
    requires mode == DataMode ==> kind == "DATA"
    requires Balanced(kind) && |kind| < TYPE_SIZE && '\0' !in kind
    requires n < UINT32_RANGE && FieldsSurvive(fields) && obj.fields == []
    ensures Members(mode, TailText(n, kind, fields, rest), obj)
            == Some((obj.(sequence := Some(n), kind := Some(kind), fields := fields, foundFields := true), rest))
  {
    hide Members, Member, Quoted, Dec, FieldsMember, FieldsSurvive, Balanced;
    var last := FieldsMember(fields) + "}" + rest;
    var more := Member("type", Quoted(kind)) + "," + last;
    SequenceRead(mode, n, more, obj);
    TypeRead(mode, kind, last, obj.(sequence := Some(n)));
    FieldsReadLast(mode, fields, rest, obj.(sequence := Some(n), kind := Some(kind)));
  }

  lemma KvParses(mode: Mode, kind: string, m: KvMessage, rest: string)
    requires mode == DataMode ==> kind == "DATA"
    requires Balanced(kind) && |kind| < TYPE_SIZE && '\0' !in kind
    requires m.sequence < UINT32_RANGE && Balanced(m.id) && FieldsSurvive(m.fields)
    ensures Parse(mode, KvObject(kind, m) + rest)
            == Some((EMPTY_OBJECT.(node := Some(m.id), sequence := Some(m.sequence), kind := Some(kind),
                                   fields := m.fields, foundFields := true), rest))
  {
    hide Parse, Members, Member, Quoted, Dec, FieldsMember, FieldsSurvive, Balanced;
    var tail := TailText(m.sequence, kind, m.fields, rest);
    assert KvObject(kind, m) + rest == "{" + (Member("node", Quoted(m.id)) + "," + tail);
    Opens(mode, Member("node", Quoted(m.id)) + "," + tail);
    NodeRead(mode, m.id, tail, EMPTY_OBJECT);
    TailParses(mode, m.sequence, kind, m.fields, rest, EMPTY_OBJECT.(node := Some(m.id)));
  }

  lemma CommandParses(c: Command, rest: string)
    requires c.sequence < UINT32_RANGE && Balanced(c.target) && Balanced(c.sender) && FieldsSurvive(c.fields)
    ensures Parse(ControlMode, CommandObject(c) + rest)
            == Some((EMPTY_OBJECT.(node := Some(c.target), sender := Some(c.sender), sequence := Some(c.sequence),
                                   kind := Some("CMD"), fields := c.fields, foundFields := true), rest))
  {
    hide Parse, Members, Member, Quoted, Dec, FieldsMember, FieldsSurvive;
    PlainIsBalanced("CMD");
    var tail := TailText(c.sequence, "CMD", c.fields, rest);
    var more := Member("sender", Quoted(c.sender)) + "," + tail;
    assert CommandObject(c) + rest == "{" + (Member("node", Quoted(c.target)) + "," + more);
    Opens(ControlMode, Member("node", Quoted(c.target)) + "," + more);
    NodeRead(ControlMode, c.target, more, EMPTY_OBJECT);
    SenderRead(c.sender, tail, EMPTY_OBJECT.(node := Some(c.target)));
    TailParses(ControlMode, c.sequence, "CMD", c.fields, rest,
               EMPTY_OBJECT.(node := Some(c.target), sender := Some(c.sender)));
  }

  lemma NackParses(m: NackMessage, rest: string)
    requires m.sequence < UINT32_RANGE && Balanced(m.nodeId) && m.error != "" && Balanced(m.error)
    ensures Parse(ControlMode, NackObject(m) + rest)
            == Some((EMPTY_OBJECT.(node := Some(m.nodeId), sequence := Some(m.sequence), kind := Some("NACK"),
                                   error := Some(m.error)), rest))
  {
    hide Parse, Members, Member, Quoted, Dec;
    PlainIsBalanced("NACK");
    var last := Member("error", Quoted(m.error)) + "}" + rest;
    var more := Member("type", Quoted("NACK")) + "," + last;
    var tail := Member("seq", Dec(m.sequence)) + "," + more;
    assert NackObject(m) + rest == "{" + (Member("node", Quoted(m.nodeId)) + "," + tail);
    Opens(ControlMode, Member("node", Quoted(m.nodeId)) + "," + tail);
    var obj := EMPTY_OBJECT.(node := Some(m.nodeId));
    NodeRead(ControlMode, m.nodeId, tail, EMPTY_OBJECT);
    SequenceRead(ControlMode, m.sequence, more, obj);
    TypeRead(ControlMode, "NACK", last, obj.(sequence := Some(m.sequence)));
    ErrorReadLast(m.error, rest, obj.(sequence := Some(m.sequence), kind := Some("NACK")));
  }
}
