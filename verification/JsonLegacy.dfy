/** Lines in the older formats: measurements and led as numbers beside the other members. */
module JsonLegacy {
  import opened Text
  import opened FrameFormat
  import opened FrameDecoder
  import opened JsonScan
  import opened JsonObject
  import opened JsonMessage
  import opened JsonRoundTrip
  import JsonParser
  import JsonRequired

  // ---------------------------------------------------------------- decimal numbers

  /** A decimal number as a node writes it; an empty fraction comes without its point. */
  datatype Decimal = Decimal(negative: bool, whole: string, fraction: string)

  ghost predicate IsDecimal(d: Decimal) {
    && d.whole != "" && AllDigits(d.whole) && AllDigits(d.fraction)
    && Value(d.whole) <= 214748363
  }

  function DecimalText(d: Decimal): string {
    (if d.negative then "-" else "") + d.whole + (if d.fraction == "" then "" else "." + d.fraction)
  }

  /** Ten times the number, digits after the first decimal cut off. */
  function TenTimes(d: Decimal): int
    requires AllDigits(d.whole) && AllDigits(d.fraction)
  {
    var n := 10 * Value(d.whole) + if d.fraction == "" then 0 else DigitOf(d.fraction[0]);
    if d.negative then -n else n
  }

  /** The guarded loop reads any digits whose value stays within the guard. */
  lemma {:induction false} GuardedRead(digits: string, k: nat, rest: string)
    requires k <= |digits| && AllDigits(digits) && Value(digits) <= X10_GUARD && !StartsWithDigit(rest)
    ensures GuardedInteger(Value(digits[..k]), digits[k..] + rest) == Some(Value(digits))
    decreases |digits| - k
  {
    var s := digits[k..] + rest;
    if k == |digits| {
      assert s == rest && digits[..k] == digits;
    } else {
      JsonParser.PrefixValue(digits, k);
      assert s[0] == digits[k] && s[1..] == digits[k + 1..] + rest;
      assert digits[..k + 1][..k] == digits[..k];
      GuardedRead(digits, k + 1, rest);
    }
  }

  lemma FractionRead(fraction: string, rest: string)
    requires AllDigits(fraction) && !StartsWithDigit(rest) && !StartsWith(rest, '.')
    ensures var f := (if fraction == "" then "" else "." + fraction) + rest;
            && SkipFraction(f) == rest
            && Tenths(f) == (if fraction == "" then 0 else DigitOf(fraction[0]))
            && !StartsWithDigit(f)
  {
    if fraction == "" {
      assert "" + rest == rest;
    } else {
      var f := "." + fraction + rest;
      assert f[1..] == fraction + rest;
      DigitsThen(fraction, rest);
      assert (fraction + rest)[0] == fraction[0];
    }
  }

  lemma InRange(d: Decimal)
    requires IsDecimal(d)
    ensures ToInt32(TenTimes(d)) == TenTimes(d)
  {
  }

  lemma TimesTenRead(negative: bool, digits: string, n: nat, f: string, rest: string)
    requires StartsWithDigit(digits) && GuardedInteger(0, digits) == Some(n) && SkipDigits(digits) == f && SkipFraction(f) == rest
    ensures TimesTen((if negative then "-" else "") + digits) == Some((ToInt32(Signed(negative, n * 10 + Tenths(f))), rest))
  {
    hide GuardedInteger, SkipDigits, SkipFraction, Tenths, ToInt32;
    var s := (if negative then "-" else "") + digits;
    assert !IsDigit('-');
    assert if negative then s[0] == '-' && s[1..] == digits else s == digits;
  }

  lemma DecimalRead(d: Decimal, rest: string)
    requires IsDecimal(d) && !StartsWithDigit(rest) && !StartsWith(rest, '.')
    ensures TimesTen(DecimalText(d) + rest) == Some((TenTimes(d), rest))
  {
    hide GuardedInteger, SkipDigits, SkipFraction, Tenths, ToInt32, Value, TimesTen;
    var tail := (if d.fraction == "" then "" else "." + d.fraction) + rest;
    var digits := d.whole + tail;
    assert DecimalText(d) + rest == (if d.negative then "-" else "") + digits;
    assert digits[0] == d.whole[0];
    FractionRead(d.fraction, rest);
    DigitsThen(d.whole, tail);
    assert d.whole[0..] == d.whole && d.whole[..0] == "";
    GuardedRead(d.whole, 0, tail);
    NothingIsZero();
    TimesTenRead(d.negative, digits, Value(d.whole), tail, rest);
    InRange(d);
  }

  lemma NothingIsZero()
    ensures Value("") == 0
  {
  }

  // ---------------------------------------------------------------- measurements

  /** The member that carries a measurement and the key it is stored under. */
  datatype Measurement = Temperature(d: Decimal) | Humidity(d: Decimal)

  function MemberName(m: Measurement): string {
    match m
    case Temperature(_) => "temperature"
    case Humidity(_) => "humidity"
  }

  lemma TenTimesText(d: Decimal)
    requires IsDecimal(d)
    ensures |SignedDec(TenTimes(d))| <= 11 && '\0' !in SignedDec(TenTimes(d))
  {
    InRange(d);
    Int32Text(TenTimes(d));
  }

  /** T is ten times the temperature, H ten times the humidity. */
  function StoredField(m: Measurement): Field
    requires IsDecimal(m.d)
  {
    TenTimesText(m.d);
    match m
    case Temperature(d) => Field("T", SignedDec(TenTimes(d)))
    case Humidity(d) => Field("H", SignedDec(TenTimes(d)))
  }

  lemma DecimalStarts(d: Decimal, rest: string)
    requires IsDecimal(d)
    ensures var s := DecimalText(d) + rest; s != "" && !IsWhite(s[0]) && s[0] != '"' && s[0] != '{'
  {
    assert IsDigit(d.whole[0]);
    var s := DecimalText(d) + rest;
    assert s[0] == if d.negative then '-' else d.whole[0];
  }

  lemma MeasurementValue(m: Measurement, rest: string, obj: JsonObject)
    requires IsDecimal(m.d) && |obj.fields| < FRAME_DATA_MAX_FIELDS && !StartsWithDigit(rest) && !StartsWith(rest, '.')
    ensures MemberValue(DataMode, MemberName(m), DecimalText(m.d) + rest, obj)
            == Some((obj.(fields := obj.fields + [StoredField(m)]), rest))
  {
    var s := DecimalText(m.d) + rest;
    DecimalStarts(m.d, rest);
    DecimalRead(m.d, rest);
    TenTimesText(m.d);
    hide TimesTen, DecimalText, TenTimes, SignedDec, SkipTail, ScanString;
    assert MemberName(m) == "temperature" || MemberName(m) == "humidity";
  }

  lemma MeasurementRead(m: Measurement, rest: string, obj: JsonObject)
    requires IsDecimal(m.d) && |obj.fields| < FRAME_DATA_MAX_FIELDS
    ensures Members(DataMode, Member(MemberName(m), DecimalText(m.d)) + "," + rest, obj)
            == Members(DataMode, rest, obj.(fields := obj.fields + [StoredField(m)]))
  {
    hide Members, MemberValue, Member, DecimalText, StoredField;
    NamesAreBalanced();
    MeasurementValue(m, "," + rest, obj);
    DecimalStarts(m.d, "");
    assert DecimalText(m.d) + "" == DecimalText(m.d);
    assert DecimalText(m.d) + "," + rest == DecimalText(m.d) + ("," + rest);
    MemberRead(DataMode, MemberName(m), DecimalText(m.d), rest, obj, obj.(fields := obj.fields + [StoredField(m)]));
  }

  lemma MeasurementReadLast(m: Measurement, rest: string, obj: JsonObject)
    requires IsDecimal(m.d) && |obj.fields| < FRAME_DATA_MAX_FIELDS
    ensures Members(DataMode, Member(MemberName(m), DecimalText(m.d)) + "}" + rest, obj)
            == Some((obj.(fields := obj.fields + [StoredField(m)]), rest))
  {
    hide Members, MemberValue, Member, DecimalText, StoredField;
    NamesAreBalanced();
    MeasurementValue(m, "}" + rest, obj);
    DecimalStarts(m.d, "");
    assert DecimalText(m.d) + "" == DecimalText(m.d);
    assert DecimalText(m.d) + "}" + rest == DecimalText(m.d) + ("}" + rest);
    LastMemberRead(DataMode, MemberName(m), DecimalText(m.d), rest, obj, obj.(fields := obj.fields + [StoredField(m)]));
  }

  lemma NamesAreBalanced()
    ensures Balanced("temperature") && Balanced("humidity") && Balanced("led")
  {
    PlainIsBalanced("temperature");
    PlainIsBalanced("humidity");
    PlainIsBalanced("led");
  }

  // ---------------------------------------------------------------- legacy DATA lines

  /** {"node":"ID","seq":N,"type":"DATA","first":D,"second":D} and what follows it on the line. */
  function LegacyData(id: string, n: nat, first: Measurement, second: Measurement, rest: string): string {
    "{" + ("\"node\":\"" + id + "\"," + ("\"seq\":" + Dec(n) + "," + ("\"type\":\"DATA\"," + (
    "\"" + MemberName(first) + "\":" + DecimalText(first.d) + "," + (
    "\"" + MemberName(second) + "\":" + DecimalText(second.d) + "}" + rest)))))
  }

  lemma LegacyParts(id: string, n: nat, first: Measurement, second: Measurement, rest: string)
    ensures LegacyData(id, n, first, second, rest)
            == "{" + (Member("node", Quoted(id)) + "," + (Member("seq", Dec(n)) + ","
               + (Member("type", Quoted("DATA")) + "," + (Member(MemberName(first), DecimalText(first.d)) + ","
               + (Member(MemberName(second), DecimalText(second.d)) + "}" + rest)))))
  {
    hide Dec, DecimalText;
    assert "\"node\":\"" + id + "\"," == Member("node", Quoted(id)) + ",";
    assert "\"seq\":" + Dec(n) + "," == Member("seq", Dec(n)) + ",";
    assert "\"type\":\"DATA\"," == Member("type", Quoted("DATA")) + ",";
    MeasurementText(first);
    MeasurementText(second);
    hide Member, Quoted, MemberName;
  }

  lemma MeasurementText(m: Measurement)
    ensures "\"" + MemberName(m) + "\":" + DecimalText(m.d) == Member(MemberName(m), DecimalText(m.d))
  {
    hide DecimalText, MemberName;
    assert "\"" + ":" == "\":";
  }

  /**
   * A line in the older format gives the measurements as fields T and H in the order they stand in, each ten times the
   * number with further decimals cut off, whatever follows the object on the line.
   */
  lemma LegacyDataDecodes(id: NodeId, n: nat, first: Measurement, second: Measurement, rest: string)
    requires Balanced(id) && n < UINT32_RANGE && IsDecimal(first.d) && IsDecimal(second.d)
    ensures var line := LegacyData(id, n, first, second, rest);
            DecodeDataLine(line)
            == Accepted(KvMessage(id, n, [StoredField(first), StoredField(second)]), |line| - |rest|)
  {
    hide Parse, Members, Member, Quoted, Dec, DecimalText, StoredField, Balanced, LegacyData;
    LegacyParts(id, n, first, second, rest);
    PlainIsBalanced("DATA");
    var o0 := EMPTY_OBJECT;
    var o1 := o0.(node := Some(id));
    var o2 := o1.(sequence := Some(n));
    var o3 := o2.(kind := Some("DATA"));
    var o4 := o3.(fields := [StoredField(first)]);
    var t5 := Member(MemberName(second), DecimalText(second.d)) + "}" + rest;
    var t4 := Member(MemberName(first), DecimalText(first.d)) + "," + t5;
    var t3 := Member("type", Quoted("DATA")) + "," + t4;
    var t2 := Member("seq", Dec(n)) + "," + t3;
    var t1 := Member("node", Quoted(id)) + "," + t2;
    Opens(DataMode, t1);
    NodeRead(DataMode, id, t2, o0);
    SequenceRead(DataMode, n, t3, o1);
    TypeRead(DataMode, "DATA", t4, o2);
    assert o3.fields == [] && [] + [StoredField(first)] == [StoredField(first)];
    MeasurementRead(first, t5, o3);
    MeasurementReadLast(second, rest, o4);
    assert [StoredField(first)] + [StoredField(second)] == [StoredField(first), StoredField(second)];
  }

  lemma DecAppend(n: nat)
    requires n >= 10
    ensures Dec(n) == Dec(n / 10) + [DigitChar(n % 10)]
  {
  }

  lemma SmallDecs()
    ensures Dec(1) == "1" && Dec(2) == "2" && Dec(6) == "6"
  {
  }

  lemma DocumentedNumbers()
    ensures Dec(253) == "253" && Dec(601) == "601" && Dec(1) == "1"
  {
    SmallDecs();
    hide Dec;
    DecAppend(253);
    DecAppend(25);
    DecAppend(601);
    DecAppend(60);
    assert DigitChar(3) == '3' && DigitChar(5) == '5' && DigitChar(0) == '0' && DigitChar(1) == '1';
  }

  lemma DocumentedValues()
    ensures AllDigits("25") && AllDigits("60") && AllDigits("3") && AllDigits("1") && Value("25") == 25 && Value("60") == 60
  {
    assert "25"[..1] == "2" && "60"[..1] == "6" && "2"[..0] == "" && "6"[..0] == "";
    assert Value("2") == 2 && Value("6") == 6;
  }

  const WARM := Temperature(Decimal(false, "25", "3"))
  const DAMP := Humidity(Decimal(false, "60", "1"))

  /** The documented line, 25.3 degrees and 60.1 percent, gives T=253 and H=601; the other order keeps the pairs. */
  lemma DocumentedLine(id: NodeId, n: nat, rest: string)
    requires Balanced(id) && n < UINT32_RANGE
    ensures DecimalText(WARM.d) == "25.3" && DecimalText(DAMP.d) == "60.1"
    ensures var line := LegacyData(id, n, WARM, DAMP, rest);
            DecodeDataLine(line) == Accepted(KvMessage(id, n, [Field("T", "253"), Field("H", "601")]), |line| - |rest|)
    ensures var line := LegacyData(id, n, DAMP, WARM, rest);
            DecodeDataLine(line) == Accepted(KvMessage(id, n, [Field("H", "601"), Field("T", "253")]), |line| - |rest|)
  {
    hide DecodeDataLine, LegacyData, Balanced;
    DocumentedValues();
    DocumentedNumbers();
    hide Dec, Value;
    assert TenTimes(WARM.d) == 253 && TenTimes(DAMP.d) == 601;
    LegacyDataDecodes(id, n, WARM, DAMP, rest);
    LegacyDataDecodes(id, n, DAMP, WARM, rest);
  }

  // ---------------------------------------------------------------- numbers that are refused

  lemma {:induction false} GuardedRefused(digits: string, k: nat, rest: string)
    requires k < |digits| && AllDigits(digits) && Value(digits) >= 2147483640
    ensures GuardedInteger(Value(digits[..k]), digits[k..] + rest) == None
    decreases |digits| - k
  {
    var s := digits[k..] + rest;
    assert s[0] == digits[k] && s[1..] == digits[k + 1..] + rest;
    assert digits[..k + 1][..k] == digits[..k];
    if k + 1 == |digits| {
      assert digits[..k + 1] == digits;
    } else {
      GuardedRefused(digits, k + 1, rest);
    }
  }

  /** A measurement whose integer part is 2147483640 or more makes the DATA decoder refuse the object. */
  lemma HugeMeasurementRefused(m: Measurement, body: string)
    requires m.d.whole != "" && AllDigits(m.d.whole) && AllDigits(m.d.fraction) && Value(m.d.whole) >= 2147483640
    ensures Parse(DataMode, "{" + (Member(MemberName(m), DecimalText(m.d)) + "," + body)) == None
  {
    hide Parse, Member, Members, Value;
    var text := DecimalText(m.d);
    NamesAreBalanced();
    Opens(DataMode, Member(MemberName(m), text) + "," + body);
    HugeValue(m, body);
    assert IsDigit(m.d.whole[0]);
    assert text[0] == if m.d.negative then '-' else m.d.whole[0];
    JsonRequired.MemberRefused(DataMode, MemberName(m), text, body, EMPTY_OBJECT);
  }

  lemma HugeValue(m: Measurement, body: string)
    requires m.d.whole != "" && AllDigits(m.d.whole) && AllDigits(m.d.fraction) && Value(m.d.whole) >= 2147483640
    ensures MemberValue(DataMode, MemberName(m), DecimalText(m.d) + "," + body, EMPTY_OBJECT) == None
  {
    hide Value, ScanString, SkipTail;
    var d := m.d;
    var tail := (if d.fraction == "" then "" else "." + d.fraction) + ("," + body);
    var digits := d.whole + tail;
    var s := DecimalText(d) + "," + body;
    assert s == (if d.negative then "-" else "") + digits;
    assert digits[0] == d.whole[0] && IsDigit(d.whole[0]) && !IsDigit('-');
    assert d.whole[0..] == d.whole && d.whole[..0] == "";
    GuardedRefused(d.whole, 0, tail);
    NothingIsZero();
    hide GuardedInteger, DecimalText;
    GuardRefuses(d.negative, digits);
    hide TimesTen;
  }

  lemma GuardRefuses(negative: bool, digits: string)
    requires StartsWithDigit(digits) && GuardedInteger(0, digits) == None
    ensures TimesTen((if negative then "-" else "") + digits) == None
  {
    hide GuardedInteger;
    var s := (if negative then "-" else "") + digits;
    assert !IsDigit('-');
    assert if negative then s[0] == '-' && s[1..] == digits else s == digits;
  }
}
