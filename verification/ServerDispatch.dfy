/** How the server decides what a line is: by searching it for a type member. */
module ServerDispatch {
  import opened Text
  import opened FrameFormat
  import opened FrameDecoder
  import opened JsonScan
  import opened JsonObject
  import opened JsonMessage
  import opened JsonRoundTrip
  import opened JsonRelay

  predicate OccursAt(line: string, pattern: string, i: nat) {
    i + |pattern| <= |line| && line[i..i + |pattern|] == pattern
  }

  ghost predicate Occurs(line: string, pattern: string) {
    exists i: nat :: OccursAt(line, pattern, i)
  }

  method LineHas(line: string, pattern: string) returns (found: bool)
    ensures found == Occurs(line, pattern)
  {
    if |pattern| > |line| {
      return false;
    }
    for i := 0 to |line| - |pattern| + 1
      invariant forall k :: 0 <= k < i ==> !OccursAt(line, pattern, k)
    {
      if line[i..i + |pattern|] == pattern {
        assert OccursAt(line, pattern, i);
        return true;
      }
    }
    return false;
  }

  datatype ServerEvent = AckEvent(ack: KvMessage) | NackEvent(nack: NackMessage) | DataEvent(data: KvMessage) | Ignored

  function TypeMember(kind: string): string {
    Member("type", Quoted(kind))
  }

  ghost function ServerReads(line: string): ServerEvent {
    if Occurs(line, TypeMember("ACK")) then
      var d := DecodeControlKv("ACK", line);
      if d.Accepted? then AckEvent(d.message) else Ignored
    else if Occurs(line, TypeMember("NACK")) then
      var d := DecodeNackLine(line);
      if d.Accepted? then NackEvent(d.message) else Ignored
    else
      var d := DecodeDataLine(line);
      if d.Accepted? then DataEvent(d.message) else Ignored
  }

  method OnLine(line: string) returns (event: ServerEvent)
    ensures event == ServerReads(line)
  {
    hide DecodeControlKv, DecodeNackLine, DecodeDataLine, Occurs;
    assert TypeMember("ACK") == "\"type\":\"ACK\"";
    assert TypeMember("NACK") == "\"type\":\"NACK\"";
    var isAck := LineHas(line, "\"type\":\"ACK\"");
    if isAck {
      var ack := MessageJsonDecodeKv("ACK", line);
      return if ack.Accepted? then AckEvent(ack.message) else Ignored;
    }
    var isNack := LineHas(line, "\"type\":\"NACK\"");
    if isNack {
      var nack := MessageJsonDecodeNack(line);
      return if nack.Accepted? then NackEvent(nack.message) else Ignored;
    }
    var data := MessageJsonDecodeData(line);
    return if data.Accepted? then DataEvent(data.message) else Ignored;
  }

  // ---------------------------------------------------------------- lines as quote-separated pieces

  ghost predicate QuoteFree(t: seq<string>) {
    forall i :: 0 <= i < |t| ==> '"' !in t[i]
  }

  function Join(t: seq<string>): string
    requires t != []
  {
    if |t| == 1 then t[0] else t[0] + "\"" + Join(t[1..])
  }

  lemma {:induction false} JoinConcat(a: seq<string>, b: seq<string>)
    requires a != [] && b != []
    ensures Join(a + b) == Join(a) + "\"" + Join(b)
    decreases |a|
  {
    if |a| == 1 {
      assert (a + b)[1..] == b;
    } else {
      assert (a + b)[1..] == a[1..] + b;
      JoinConcat(a[1..], b);
      assert Join(a) + "\"" + Join(b) == a[0] + "\"" + (Join(a[1..]) + "\"" + Join(b));
    }
  }

  lemma {:induction false} SamePieces(t: seq<string>, q: seq<string>)
    requires q != [] && |q| < |t| && t[..|q|] == q
    ensures Join(q) + "\"" <= Join(t)
    decreases |q|
  {
    assert t[0] == q[0];
    if |q| > 1 {
      assert t[1..][..|q| - 1] == t[..|q|][1..] == q[1..];
      SamePieces(t[1..], q[1..]);
      assert Join(t) == q[0] + "\"" + Join(t[1..]);
    } else {
      assert Join(t) == q[0] + "\"" + Join(t[1..]);
    }
  }

  /** Pieces q with quotes between them and after, at the start of the pieces t. */
  lemma {:induction false} PrefixPieces(t: seq<string>, q: seq<string>)
    requires t != [] && q != [] && QuoteFree(t) && QuoteFree(q)
    requires Join(q) + "\"" <= Join(t)
    ensures |q| < |t| && t[..|q|] == q
    decreases |q|
  {
    var whole, pattern := Join(t), Join(q) + "\"";
    assert whole[|pattern| - 1] == '"';
    assert '"' !in t[0];
    if |t| > 1 {
      assert whole == t[0] + "\"" + Join(t[1..]);
      if |q| == 1 {
        SameFirstPiece(t[0], Join(t[1..]), q[0], "", whole);
        assert t[..1] == [t[0]];
      } else {
        assert pattern == q[0] + "\"" + (Join(q[1..]) + "\"");
        SameFirstPiece(t[0], Join(t[1..]), q[0], Join(q[1..]) + "\"", whole);
        PrefixPieces(t[1..], q[1..]);
        assert t[..|q|] == [t[0]] + t[1..][..|q| - 1];
        assert q == [q[0]] + q[1..];
      }
    }
  }

  lemma SameFirstPiece(a: string, rest: string, b: string, more: string, whole: string)
    requires '"' !in a && '"' !in b
    requires whole == a + "\"" + rest && b + "\"" + more <= whole
    ensures a == b && more <= rest
  {
    FindUnique(whole, '"', |a|);
    assert whole[..|b|] == b && whole[|b|] == '"';
    FindUnique(whole, '"', |b|);
    assert whole[..|a|] == a;
    assert whole[|a| + 1..] == rest;
    assert whole[|a| + 1..][..|more|] == more;
  }

  predicate StandsAt(t: seq<string>, q: seq<string>, i: nat) {
    i + |q| < |t| && t[i..i + |q|] == q
  }

  /** Somewhere strictly inside t stand the pieces q. */
  ghost predicate Inside(t: seq<string>, q: seq<string>) {
    exists i: nat :: i >= 1 && StandsAt(t, q, i)
  }

  function Pattern(q: seq<string>): string
    requires q != []
  {
    "\"" + Join(q) + "\""
  }

  lemma {:induction false} InsideOccurs(t: seq<string>, q: seq<string>, i: nat)
    requires q != [] && i >= 1 && StandsAt(t, q, i)
    ensures Occurs(Join(t), Pattern(q))
    decreases |t|
  {
    var whole, pattern, tail := Join(t), Pattern(q), Join(t[1..]);
    assert whole == t[0] + "\"" + tail;
    if i == 1 {
      assert t[1..][..|q|] == q;
      SamePieces(t[1..], q);
      assert whole[|t[0]|..|t[0]| + |pattern|] == "\"" + tail[..|pattern| - 1];
      assert OccursAt(whole, pattern, |t[0]|);
    } else {
      assert t[1..][i - 1..i - 1 + |q|] == t[i..i + |q|];
      InsideOccurs(t[1..], q, i - 1);
      var k: nat :| OccursAt(tail, pattern, k);
      assert whole[|t[0]| + 1 + k..|t[0]| + 1 + k + |pattern|] == tail[k..k + |pattern|];
      assert OccursAt(whole, pattern, |t[0]| + 1 + k);
    }
  }

  lemma {:induction false} OccursInside(t: seq<string>, q: seq<string>, k: nat)
    requires t != [] && q != [] && QuoteFree(t) && QuoteFree(q)
    requires OccursAt(Join(t), Pattern(q), k)
    ensures Inside(t, q)
    decreases |t|
  {
    var whole, pattern := Join(t), Pattern(q);
    assert whole[k] == whole[k..k + |pattern|][0] == '"';
    assert '"' !in t[0];
    if |t| > 1 {
      var tail := Join(t[1..]);
      assert whole == t[0] + "\"" + tail;
      if k == |t[0]| {
        assert tail[..|pattern| - 1] == whole[k..k + |pattern|][1..] == Join(q) + "\"";
        PrefixPieces(t[1..], q);
        assert t[1..1 + |q|] == t[1..][..|q|];
        assert StandsAt(t, q, 1);
      } else {
        var m := k - |t[0]| - 1;
        assert tail[m..m + |pattern|] == whole[k..k + |pattern|];
        OccursInside(t[1..], q, m);
        var i: nat :| i >= 1 && StandsAt(t[1..], q, i);
        assert t[i + 1..i + 1 + |q|] == t[1..][i..i + |q|];
        assert StandsAt(t, q, i + 1);
      }
    }
  }

  lemma OccursIffInside(t: seq<string>, q: seq<string>)
    requires t != [] && q != [] && QuoteFree(t) && QuoteFree(q)
    ensures Occurs(Join(t), Pattern(q)) <==> Inside(t, q)
  {
    if Occurs(Join(t), Pattern(q)) {
      var k: nat :| OccursAt(Join(t), Pattern(q), k);
      OccursInside(t, q, k);
    }
    if Inside(t, q) {
      var i: nat :| i >= 1 && StandsAt(t, q, i);
      InsideOccurs(t, q, i);
    }
  }

  // ---------------------------------------------------------------- printed messages as pieces

  lemma JoinTwo(a: string, b: string)
    ensures Join([a, b]) == a + "\"" + b
  {
    assert [a, b][1..] == [b];
    assert Join([b]) == b;
  }

  lemma JoinThree(a: string, b: string, c: string)
    ensures Join([a, b, c]) == a + "\"" + b + "\"" + c
  {
    assert [a, b, c][1..] == [b, c];
    JoinTwo(b, c);
    assert a + "\"" + (b + "\"" + c) == a + "\"" + b + "\"" + c;
  }

  lemma JoinFour(a: string, b: string, c: string, d: string)
    ensures Join([a, b, c, d]) == a + "\"" + b + "\"" + c + "\"" + d
  {
    assert [a, b, c, d][1..] == [b, c, d];
    JoinThree(b, c, d);
    assert a + "\"" + (b + "\"" + c + "\"" + d) == a + "\"" + b + "\"" + c + "\"" + d;
  }

  function FieldPieces(fields: seq<Field>): (t: seq<string>)
    requires fields != []
    ensures |t| == 4 * |fields|
  {
    [fields[0].key, ":", fields[0].value]
    + if |fields| == 1 then ["}}"] else [","] + FieldPieces(fields[1..])
  }

  function HeadPieces(kind: string, m: KvMessage, last: string): seq<string> {
    ["{", "node", ":", m.id, ",", "seq", ":" + Dec(m.sequence) + ",", "type", ":", kind, ",", "fields", last]
  }

  function KvPieces(kind: string, m: KvMessage): seq<string> {
    if m.fields == [] then HeadPieces(kind, m, ":{}}")
    else HeadPieces(kind, m, ":{") + FieldPieces(m.fields)
  }

  lemma {:induction false} JoinFieldPieces(fields: seq<Field>)
    requires fields != []
    ensures "\"" + Join(FieldPieces(fields)) == FieldsJson(fields) + "}}"
    decreases |fields|
  {
    hide Join;
    var f := fields[0];
    JoinThree(f.key, ":", f.value);
    var first := f.key + "\"" + ":" + "\"" + f.value;
    assert FieldJson(f) == "\"" + first + "\"";
    if |fields| == 1 {
      JoinConcat([f.key, ":", f.value], ["}}"]);
      JoinOne("}}");
    } else {
      var rest := FieldPieces(fields[1..]);
      JoinFieldPieces(fields[1..]);
      JoinConcat([f.key, ":", f.value], [","] + rest);
      JoinConcat([","], rest);
      JoinOne(",");
      assert "\"" + (first + "\"" + ("," + "\"" + Join(rest))) == FieldJson(f) + "," + ("\"" + Join(rest));
      assert FieldJson(f) + "," + (FieldsJson(fields[1..]) + "}}") == FieldsJson(fields) + "}}";
    }
  }

  lemma JoinOne(a: string)
    ensures Join([a]) == a
  {
  }

  lemma JoinHead(kind: string, m: KvMessage, last: string)
    ensures Join(HeadPieces(kind, m, last))
            == "{" + Member("node", Quoted(m.id)) + "," + Member("seq", Dec(m.sequence)) + ","
               + Member("type", Quoted(kind)) + "," + Quoted("fields") + last
  {
    hide Dec, Join;
    var number := ":" + Dec(m.sequence) + ",";
    var t1, t2, t3, t4 := ["{", "node", ":"], [m.id, ",", "seq"], [number, "type", ":"], [kind, ",", "fields", last];
    assert HeadPieces(kind, m, last) == t1 + (t2 + (t3 + t4));
    JoinConcat(t1, t2 + (t3 + t4));
    JoinConcat(t2, t3 + t4);
    JoinConcat(t3, t4);
    JoinThree("{", "node", ":");
    JoinThree(m.id, ",", "seq");
    JoinThree(number, "type", ":");
    JoinFour(kind, ",", "fields", last);
    HeadText("\"", m.id, Dec(m.sequence), kind, last);
  }

  lemma HeadText(q: string, id: string, n: string, kind: string, last: string)
    ensures ("{" + q + "node" + q + ":") + q + ((id + q + "," + q + "seq") + q + ((":" + n + "," + q + "type" + q + ":") + q
            + (kind + q + "," + q + "fields" + q + last)))
            == "{" + ((q + "node" + q) + ":" + (q + id + q)) + "," + ((q + "seq" + q) + ":" + n) + ","
               + ((q + "type" + q) + ":" + (q + kind + q)) + "," + (q + "fields" + q) + last
  {
  }

  lemma JoinKvPieces(kind: string, m: KvMessage)
    ensures Join(KvPieces(kind, m)) == KvObject(kind, m)
  {
    hide Dec, FieldsJson, HeadPieces, Join;
    if m.fields == [] {
      JoinHead(kind, m, ":{}}");
      NoFieldsJson();
    } else {
      JoinHead(kind, m, ":{");
      var head := HeadPieces(kind, m, ":{");
      assert |head| == 13 by { HeadLength(kind, m, ":{"); }
      JoinConcat(head, FieldPieces(m.fields));
      JoinFieldPieces(m.fields);
      assert Join(head) + ("\"" + Join(FieldPieces(m.fields))) == Join(head) + "\"" + Join(FieldPieces(m.fields));
    }
  }

  lemma HeadLength(kind: string, m: KvMessage, last: string)
    ensures |HeadPieces(kind, m, last)| == 13
  {
  }

  lemma NoFieldsJson()
    ensures FieldsJson([]) == ""
  {
  }

  ghost predicate HasField(fields: seq<Field>, key: string, value: string) {
    exists i :: 0 <= i < |fields| && fields[i].key == key && fields[i].value == value
  }

  lemma TypeAt(t: seq<string>, kind: string, i: nat)
    ensures StandsAt(t, ["type", ":", kind], i)
            <==> i + 3 < |t| && t[i] == "type" && t[i + 1] == ":" && t[i + 2] == kind
  {
    if i + 3 < |t| {
      assert t[i..i + 3] == [t[i], t[i + 1], t[i + 2]];
    }
  }

  lemma {:induction false} TypeAmongFields(fields: seq<Field>, kind: string, i: nat)
    requires fields != [] && i + 3 < 4 * |fields|
    requires FieldPieces(fields)[i] == "type" && FieldPieces(fields)[i + 1] == ":" && FieldPieces(fields)[i + 2] == kind
    ensures HasField(fields, "type", kind)
    decreases |fields|
  {
    if i >= 4 {
      assert FieldPieces(fields)[4..] == FieldPieces(fields[1..]);
      TypeAmongFields(fields[1..], kind, i - 4);
      var k :| 0 <= k < |fields[1..]| && fields[1..][k].key == "type" && fields[1..][k].value == kind;
      assert fields[k + 1].key == "type" && fields[k + 1].value == kind;
    } else {
      assert "," != ":" && "}}" != ":" && "," != "type" && ":" != "type";
      assert i == 0;
      assert fields[0].key == "type";
    }
  }

  lemma {:induction false} FieldStands(fields: seq<Field>, k: nat)
    requires k < |fields|
    ensures var t := FieldPieces(fields);
            t[4 * k] == fields[k].key && t[4 * k + 1] == ":" && t[4 * k + 2] == fields[k].value
    decreases |fields|
  {
    if k > 0 {
      assert FieldPieces(fields)[4..] == FieldPieces(fields[1..]);
      FieldStands(fields[1..], k - 1);
    }
  }

  lemma TypeInHead(kind: string, m: KvMessage, last: string, wanted: string, i: nat)
    requires i < 12 && HeadPieces(kind, m, last)[i] == "type" && HeadPieces(kind, m, last)[i + 1] == ":"
    ensures i == 7
  {
    var t := HeadPieces(kind, m, last);
    assert ":" != "," && "type" != "{" && "type" != "node" && "type" != ":" && "type" != "," && "type" != "seq";
    assert "type" != "fields";
    assert t[6][0] == ':' && "type"[0] == 't';
  }

  /** The search finds a type member exactly when the message has that type or a field that looks like it. */
  lemma KvMentionsIff(kind: string, m: KvMessage, wanted: string)
    requires QuoteFree(KvPieces(kind, m)) && '"' !in wanted
    ensures Occurs(KvObject(kind, m), TypeMember(wanted)) <==> kind == wanted || HasField(m.fields, "type", wanted)
  {
    hide Occurs, Dec, FieldPieces, KvObject;
    var t, q := KvPieces(kind, m), ["type", ":", wanted];
    var last := if m.fields == [] then ":{}}" else ":{";
    var head := HeadPieces(kind, m, last);
    JoinKvPieces(kind, m);
    JoinThree("type", ":", wanted);
    assert Pattern(q) == TypeMember(wanted);
    OccursIffInside(t, q);
    if Inside(t, q) {
      var i: nat :| i >= 1 && StandsAt(t, q, i);
      TypeAt(t, wanted, i);
      if i < 12 {
        assert t[i] == head[i] && t[i + 1] == head[i + 1];
        TypeInHead(kind, m, last, wanted, i);
      } else {
        assert last != "type" by { assert last[0] == ':'; }
        var p := FieldPieces(m.fields);
        assert p[i - 13] == t[i] && p[i - 12] == t[i + 1] && p[i - 11] == t[i + 2];
        TypeAmongFields(m.fields, wanted, i - 13);
      }
    }
    if kind == wanted {
      TypeAt(t, wanted, 7);
      assert StandsAt(t, q, 7);
    }
    if HasField(m.fields, "type", wanted) {
      var k :| 0 <= k < |m.fields| && m.fields[k].key == "type" && m.fields[k].value == wanted;
      FieldStands(m.fields, k);
      TypeAt(t, wanted, 13 + 4 * k);
      assert StandsAt(t, q, 13 + 4 * k);
    }
  }

  // ---------------------------------------------------------------- what reaches the server

  ghost predicate QuoteFreeKv(m: KvMessage) {
    '"' !in m.id && forall i :: 0 <= i < |m.fields| ==> '"' !in m.fields[i].key && '"' !in m.fields[i].value
  }

  lemma {:induction false} FieldPiecesQuoteFree(fields: seq<Field>)
    requires fields != []
    requires forall i :: 0 <= i < |fields| ==> '"' !in fields[i].key && '"' !in fields[i].value
    ensures QuoteFree(FieldPieces(fields))
    decreases |fields|
  {
    if |fields| > 1 {
      FieldPiecesQuoteFree(fields[1..]);
    }
  }

  lemma KvPiecesQuoteFree(kind: string, m: KvMessage)
    requires QuoteFreeKv(m) && '"' !in kind
    ensures QuoteFree(KvPieces(kind, m))
  {
    hide FieldPieces;
    assert !IsDigit('"');
    assert '"' !in Dec(m.sequence);
    if m.fields != [] {
      FieldPiecesQuoteFree(m.fields);
    }
  }

  lemma KindMatters(kind: string, other: string, m: KvMessage)
    requires KvSurvives(m) && kind != other
    requires Balanced(kind) && |kind| < TYPE_SIZE && '\0' !in kind
    ensures DecodeControlKv(other, KvObject(kind, m)).Rejected?
    ensures other == "NACK" ==> DecodeNackLine(KvObject(kind, m)).Rejected?
  {
    hide Parse, Balanced, FieldsSurvive, KvObject;
    KvParses(ControlMode, kind, m, "");
    assert KvObject(kind, m) + "" == KvObject(kind, m);
  }

  /** A DATA line reaches the node store exactly when the search finds neither reply type in it. */
  lemma DataReachesStoreIff(m: KvMessage)
    requires KvSurvives(m)
    ensures ServerReads(KvObject("DATA", m)) == DataEvent(m)
            <==> !Occurs(KvObject("DATA", m), TypeMember("ACK")) && !Occurs(KvObject("DATA", m), TypeMember("NACK"))
  {
    hide Occurs, Balanced, FieldsSurvive, KvObject, DecodeControlKv, DecodeNackLine, DecodeDataLine;
    DataRoundTripIff(m, "");
    assert KvObject("DATA", m) + "" == KvObject("DATA", m);
    KindsAreBalanced();
    KindMatters("DATA", "ACK", m);
    KindMatters("DATA", "NACK", m);
  }

  /** Without quotes in its texts, that is: exactly when no field is named type with value ACK or NACK. */
  lemma PlainDataReachesStoreIff(m: KvMessage)
    requires KvSurvives(m) && QuoteFreeKv(m)
    ensures ServerReads(KvObject("DATA", m)) == DataEvent(m)
            <==> !HasField(m.fields, "type", "ACK") && !HasField(m.fields, "type", "NACK")
  {
    hide Occurs, ServerReads, HasField, KvSurvives, KvPieces, QuoteFree, KvObject;
    DataReachesStoreIff(m);
    KvPiecesQuoteFree("DATA", m);
    KvMentionsIff("DATA", m, "ACK");
    KvMentionsIff("DATA", m, "NACK");
  }

  /** The smallest message the server loses. */
  lemma MisroutedData()
    ensures var m := KvMessage("NODE01", 1, [Field("type", "ACK")]);
            KvSurvives(m) && ServerReads(KvObject("DATA", m)) == Ignored
  {
    hide KvObject, DecodeControlKv, DecodeNackLine, DecodeDataLine, Occurs, KvPieces, TypeMember, Balanced, QuoteFree;
    var m := KvMessage("NODE01", 1, [Field("type", "ACK")]);
    PlainIsBalanced("NODE01");
    PlainIsBalanced("type");
    PlainIsBalanced("ACK");
    assert FieldSurvives(m.fields[0]);
    KvPiecesQuoteFree("DATA", m);
    KvMentionsIff("DATA", m, "ACK");
    assert m.fields[0].key == "type" && m.fields[0].value == "ACK";
    KindsAreBalanced();
    KindMatters("DATA", "ACK", m);
  }

  /** An acknowledgement always reaches the command manager as itself. */
  lemma AckReachesManager(m: KvMessage)
    requires KvSurvives(m)
    ensures ServerReads(KvObject("ACK", m)) == AckEvent(m)
  {
    hide Balanced, FieldsSurvive, DecodeControlKv, Dec, FieldsMember;
    AckRoundTripIff(m, "");
    var line := KvObject("ACK", m);
    assert line + "" == line;
    var before := "{" + Member("node", Quoted(m.id)) + "," + Member("seq", Dec(m.sequence)) + ",";
    assert line == before + TypeMember("ACK") + ("," + FieldsMember(m.fields) + "}");
    assert line[|before|..|before| + |TypeMember("ACK")|] == TypeMember("ACK");
    assert OccursAt(line, TypeMember("ACK"), |before|);
  }

  // ---------------------------------------------------------------- refusals

  function NackPieces(m: NackMessage): seq<string> {
    ["{", "node", ":", m.nodeId, ",", "seq", ":" + Dec(m.sequence) + ",", "type", ":", "NACK", ",", "error", ":",
     m.error, "}"]
  }

  lemma NackTextPieces(q: string, id: string, n: string, error: string)
    ensures ("{" + q + "node" + q + ":") + q + ((id + q + "," + q + "seq") + q + ((":" + n + "," + q + "type" + q + ":") + q
            + (("NACK" + q + "," + q + "error") + q + (":" + q + error + q + "}"))))
            == "{" + ((q + "node" + q) + ":" + (q + id + q)) + "," + ((q + "seq" + q) + ":" + n) + ","
               + ((q + "type" + q) + ":" + (q + "NACK" + q)) + "," + ((q + "error" + q) + ":" + (q + error + q)) + "}"
  {
  }

  lemma JoinNackPieces(m: NackMessage)
    ensures Join(NackPieces(m)) == NackObject(m)
  {
    hide Dec, Join;
    var number := ":" + Dec(m.sequence) + ",";
    var t1, t2, t3, t4 := ["{", "node", ":"], [m.nodeId, ",", "seq"], [number, "type", ":"], ["NACK", ",", "error"];
    var t5 := [":", m.error, "}"];
    assert NackPieces(m) == t1 + (t2 + (t3 + (t4 + t5)));
    JoinConcat(t1, t2 + (t3 + (t4 + t5)));
    JoinConcat(t2, t3 + (t4 + t5));
    JoinConcat(t3, t4 + t5);
    JoinConcat(t4, t5);
    JoinThree("{", "node", ":");
    JoinThree(m.nodeId, ",", "seq");
    JoinThree(number, "type", ":");
    JoinThree("NACK", ",", "error");
    JoinThree(":", m.error, "}");
    NackTextPieces("\"", m.nodeId, Dec(m.sequence), m.error);
  }

  lemma NackMentionsItself(m: NackMessage)
    ensures Occurs(NackObject(m), TypeMember("NACK"))
  {
    hide Dec;
    var line := NackObject(m);
    var before := "{" + Member("node", Quoted(m.nodeId)) + "," + Member("seq", Dec(m.sequence)) + ",";
    assert line == before + TypeMember("NACK") + ("," + Member("error", Quoted(m.error)) + "}");
    assert line[|before|..|before| + |TypeMember("NACK")|] == TypeMember("NACK");
    assert OccursAt(line, TypeMember("NACK"), |before|);
  }

  /** A refusal reaches the command manager exactly when its line does not also look like an acknowledgement. */
  lemma NackReachesManagerIff(m: NackMessage)
    requires NackSurvives(m)
    ensures ServerReads(NackObject(m)) == NackEvent(m) <==> !Occurs(NackObject(m), TypeMember("ACK"))
  {
    hide Occurs, Balanced, NackObject, DecodeControlKv, DecodeNackLine, DecodeDataLine;
    NackRoundTripIff(m, "");
    assert NackObject(m) + "" == NackObject(m);
    NackMentionsItself(m);
  }

  lemma NackIsNoAck(m: NackMessage, i: nat)
    ensures !StandsAt(NackPieces(m), ["type", ":", "ACK"], i)
  {
    var t := NackPieces(m);
    TypeAt(t, "ACK", i);
    assert t[4] == "," && t[9] == "NACK" && t[10] == "," && t[11] == "error" && t[6][0] == ':';
    assert "ACK" != "NACK" && "," != ":" && "NACK" != ":" && "type" != "error" && "type" != ":" && "type" != "NACK";
    assert "type" != "{" && "type" != "node" && "type" != "seq" && "type"[0] != ':';
  }

  /** Without quotes in its texts it never does. */
  lemma PlainNackReachesManager(m: NackMessage)
    requires NackSurvives(m) && '"' !in m.nodeId && '"' !in m.error
    ensures ServerReads(NackObject(m)) == NackEvent(m)
  {
    hide Occurs, Balanced, NackObject, ServerReads, Dec;
    var t, q := NackPieces(m), ["type", ":", "ACK"];
    assert !IsDigit('"');
    assert '"' !in Dec(m.sequence) by { NoQuoteInDec(m.sequence); }
    assert QuoteFree(t);
    JoinNackPieces(m);
    JoinThree("type", ":", "ACK");
    assert Pattern(q) == TypeMember("ACK");
    OccursIffInside(t, q);
    forall i: nat | i >= 1 ensures !StandsAt(t, q, i) { NackIsNoAck(m, i); }
    NackReachesManagerIff(m);
  }

  lemma NoQuoteInDec(n: nat)
    ensures '"' !in Dec(n)
  {
    assert !IsDigit('"');
  }
}
