/** The member loop that all JSON decoders share. */
module JsonObject {
  import opened Text
  import opened FrameFormat
  import opened JsonScan

  const TYPE_SIZE := 8
  const NUMBER_SIZE := 16

  /** json_parse_object reads commands, acknowledgements and refusals; message_json_decode_data has its own loop. */
  datatype Mode = ControlMode | DataMode

  datatype JsonObject = JsonObject(
    node: Option<NodeId>, sender: Option<NodeId>, sequence: Option<nat>, led: Option<Int32>,
    error: Option<NodeId>, kind: Option<string>, foundFields: bool, fields: seq<Field>)

  const EMPTY_OBJECT := JsonObject(None, None, None, None, None, None, false, [])

  // ---------------------------------------------------------------- pieces of an object

  /** A quoted key, a colon and the value that must follow. */
  function KeyColon(s: string): (r: Option<(string, string)>)
    ensures r.Some? ==> r.value.1 != "" && |r.value.1| < |s|
  {
    if !StartsWith(s, '"') then None else
      match ScanString(s[1..])
      case None => None
      case Some((key, afterKey)) =>
        var colon := SkipWhite(afterKey);
        if !StartsWith(colon, ':') then None else
          var value := SkipWhite(colon[1..]);
          if value == "" then None else Some((key, value))
  }

  datatype Separated = More(rest: string) | Done(rest: string) | Bad

  function Separator(s: string): (r: Separated)
    ensures !r.Bad? ==> |r.rest| < |s|
  {
    var t := SkipWhite(s);
    if StartsWith(t, ',') then More(t[1..]) else if StartsWith(t, '}') then Done(t[1..]) else Bad
  }

  function AddField(fields: seq<Field>, key: string, value: string): Option<seq<Field>> {
    if key == "" || |key| >= FRAME_KV_KEY_MAX || value == "" || |value| >= FRAME_KV_VALUE_MAX
       || |fields| >= FRAME_DATA_MAX_FIELDS then None
    else Some(fields + [Field(CString(key), CString(value))])
  }

  /** A field value is a string or a number; a number keeps its own text. */
  function FieldValue(s: string): (r: Option<(string, string)>)
    requires s != ""
    ensures r.Some? ==> |r.value.1| < |s|
  {
    if s[0] == '"' then ScanString(s[1..]) else
      match SkipNumber(s)
      case None => None
      case Some(rest) => Some((s[..|s| - |rest|], rest))
  }

  /** The inside of a "fields" object up to and including its closing brace. */
  function FieldMembers(s: string, fields: seq<Field>): (r: Option<(seq<Field>, string)>)
    ensures r.Some? ==> |r.value.1| < |s|
    decreases |s|
  {
    var t := SkipWhite(s);
    if StartsWith(t, '}') then Some((fields, t[1..])) else
      match KeyColon(t)
      case None => None
      case Some((key, v)) =>
        match FieldValue(v)
        case None => None
        case Some((value, afterValue)) =>
          match AddField(fields, key, value)
          case None => None
          case Some(added) =>
            match Separator(afterValue)
            case More(rest) => FieldMembers(rest, added)
            case Done(rest) => Some((added, rest))
            case Bad => None
  }

  // ---------------------------------------------------------------- member values

  function Signed(negative: bool, n: int): int {
    if negative then -n else n
  }

  /** atoi on a 64-bit target. */
  function Atoi(text: string): Int32 {
    var s := SkipSpace(text);
    var digits := LeadingDigits(if StartsWith(s, '-') || StartsWith(s, '+') then s[1..] else s);
    ToInt32(Signed(StartsWith(s, '-'), Value(digits)))
  }

  function ControlString(key: string, value: string, obj: JsonObject): Option<JsonObject> {
    if key == "node" then
      if |value| >= NODE_ID_SIZE then None else Some(obj.(node := Some(CString(value))))
    else if key == "sender" then
      if |value| >= NODE_ID_SIZE then None else Some(obj.(sender := Some(CString(value))))
    else if key == "type" then
      if |value| >= TYPE_SIZE then None else Some(obj.(kind := Some(CString(value))))
    else if key == "led" then
      if value == "" || |value| >= NUMBER_SIZE then None else Some(obj.(led := Some(Atoi(CString(value)))))
    else if key == "error" then
      if value == "" || |value| >= NODE_ID_SIZE then None else Some(obj.(error := Some(CString(value))))
    else Some(obj)
  }

  function DataString(key: string, value: string, obj: JsonObject): Option<JsonObject> {
    if key == "node" then
      if |value| >= NODE_ID_SIZE then None else Some(obj.(node := Some(CString(value))))
    else if key == "type" then
      if value != "DATA" then None else Some(obj.(kind := Some("DATA")))
    else Some(obj)
  }

  /** Digits within uint32_t, then a fraction and exponent that are skipped. */
  function Uint32Number(s: string): (r: Option<(nat, string)>)
    ensures r.Some? ==> r.value.0 < UINT32_RANGE && |r.value.1| <= |s|
  {
    var n := Value(LeadingDigits(s));
    if n >= UINT32_RANGE then None else Some((n, SkipTail(SkipDigits(s))))
  }

  function ControlNumber(key: string, s: string, obj: JsonObject): (r: Option<(JsonObject, string)>)
    requires s != ""
    ensures r.Some? ==> |r.value.1| <= |s|
  {
    var negative := s[0] == '-';
    var digits := if negative then s[1..] else s;
    if !StartsWithDigit(digits) then None else
      match Uint32Number(digits)
      case None => None
      case Some((n, rest)) =>
        if key == "seq" then
          if negative then None else Some((obj.(sequence := Some(n)), rest))
        else if key == "led" then Some((obj.(led := Some(ToInt32(Signed(negative, n)))), rest))
        else Some((obj, rest))
  }

  const X10_GUARD := 214748363

  /** The integer part of a scaled number; the guard is tested before each digit is appended to n. */
  function GuardedInteger(n: nat, s: string): (r: Option<nat>)
    ensures r.Some? && n <= 10 * X10_GUARD + 9 ==> r.value <= 10 * X10_GUARD + 9
    decreases |s|
  {
    if !StartsWithDigit(s) then Some(n)
    else if n > X10_GUARD then None
    else GuardedInteger(n * 10 + DigitOf(s[0]), s[1..])
  }

  /** The digit after the decimal point, which is the only one that counts. */
  function Tenths(f: string): nat {
    if StartsWith(f, '.') && StartsWithDigit(f[1..]) then DigitOf(f[1]) else 0
  }

  /** A number scaled by ten; further fractional digits are skipped, exponents are not read. */
  function TimesTen(s: string): (r: Option<(int, string)>)
    ensures r.Some? ==> |r.value.1| <= |s|
  {
    var i := if StartsWith(s, '-') then s[1..] else s;
    if !StartsWithDigit(i) then None else
      match GuardedInteger(0, i)
      case None => None
      case Some(n) =>
        var f := SkipDigits(i);
        Some((ToInt32(Signed(StartsWith(s, '-'), n * 10 + Tenths(f))), SkipFraction(f)))
  }

  function DataNumber(key: string, s: string, obj: JsonObject): (r: Option<(JsonObject, string)>)
    requires s != ""
    ensures r.Some? ==> |r.value.1| <= |s|
  {
    if key == "temperature" || key == "humidity" then
      match TimesTen(s)
      case None => None
      case Some((x10, rest)) =>
        match AddField(obj.fields, if key == "temperature" then "T" else "H", SignedDec(x10))
        case None => None
        case Some(fields) => Some((obj.(fields := fields), rest))
    else if key == "seq" then
      if s[0] == '-' then None else
        match Uint32Number(s)
        case None => None
        case Some((n, rest)) => Some((obj.(sequence := Some(n)), rest))
    else
      Some((obj, SkipTail(SkipDigits(if s[0] == '-' then s[1..] else s))))
  }

  function MemberValue(mode: Mode, key: string, s: string, obj: JsonObject): (r: Option<(JsonObject, string)>)
    requires s != ""
    ensures r.Some? ==> |r.value.1| <= |s|
  {
    if key == "fields" then
      if s[0] != '{' then None else
        match FieldMembers(s[1..], obj.fields)
        case None => None
        case Some((fields, rest)) => Some((obj.(fields := fields, foundFields := true), rest))
    else if s[0] == '"' then
      match ScanString(s[1..])
      case None => None
      case Some((value, rest)) =>
        match if mode == ControlMode then ControlString(key, value, obj) else DataString(key, value, obj)
        case None => None
        case Some(next) => Some((next, rest))
    else if mode == ControlMode then ControlNumber(key, s, obj)
    else DataNumber(key, s, obj)
  }

  /** The inside of the object up to and including its closing brace. */
  function Members(mode: Mode, s: string, obj: JsonObject): (r: Option<(JsonObject, string)>)
    ensures r.Some? ==> |r.value.1| < |s|
    decreases |s|
  {
    var t := SkipWhite(s);
    if StartsWith(t, '}') then Some((obj, t[1..])) else
      match KeyColon(t)
      case None => None
      case Some((key, v)) =>
        match MemberValue(mode, key, v, obj)
        case None => None
        case Some((next, afterValue)) =>
          match Separator(afterValue)
          case More(rest) => Members(mode, rest, next)
          case Done(rest) => Some((next, rest))
          case Bad => None
  }

  /** The parsed object and what follows it on the line. */
  function Parse(mode: Mode, line: string): Option<(JsonObject, string)> {
    var t := SkipWhite(line);
    if StartsWith(t, '{') then Members(mode, t[1..], EMPTY_OBJECT) else None
  }
}
