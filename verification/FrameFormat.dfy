/** What one frame on the serial line looks like: "@" payload "*" checksum "\r\n". */
module FrameFormat {
  import opened Text
  import opened Crc16

  /** Capacity of every frame buffer, terminating NUL included. */
  const FRAME_MAX_LEN := 256
  const FRAME_KV_KEY_MAX := 16
  const FRAME_KV_VALUE_MAX := 32
  const FRAME_DATA_MAX_FIELDS := 16
  const NODE_ID_SIZE := 32

  /** The texts the fixed-size char arrays of the protocol structures can hold. */
  type CStr = s: string | '\0' !in s witness ""
  type Key = s: string | '\0' !in s && |s| < FRAME_KV_KEY_MAX witness ""
  type Val = s: string | '\0' !in s && |s| < FRAME_KV_VALUE_MAX witness ""
  type NodeId = s: string | '\0' !in s && |s| < NODE_ID_SIZE witness ""

  datatype Field = Field(key: Key, value: Val)

  // ---------------------------------------------------------------- characters as octets

  function Nibble(n: nat): bv8
    requires n < 16
  {
    if n < 8 then
      if n < 4 then (if n == 0 then 0 else if n == 1 then 1 else if n == 2 then 2 else 3)
      else (if n == 4 then 4 else if n == 5 then 5 else if n == 6 then 6 else 7)
    else
      if n < 12 then (if n == 8 then 8 else if n == 9 then 9 else if n == 10 then 10 else 11)
      else (if n == 12 then 12 else if n == 13 then 13 else if n == 14 then 14 else 15)
  }

  /** The cast to uint8_t. */
  function Octet(c: char): bv8 {
    var n := (c as int) % 256;
    (Nibble(n / 16) << 4) | Nibble(n % 16)
  }

  function Octets(s: string): (o: seq<bv8>)
    ensures |o| == |s|
    ensures forall i :: 0 <= i < |s| ==> o[i] == Octet(s[i])
  {
    seq(|s|, i requires 0 <= i < |s| => Octet(s[i]))
  }

  ghost predicate IsBytes(s: string) {
    forall i :: 0 <= i < |s| ==> s[i] as int < 256
  }

  lemma NibbleInjective(a: nat, b: nat)
    requires a < 16 && b < 16 && Nibble(a) == Nibble(b)
    ensures a == b
  {
  }

  lemma NibbleSmall(a: nat)
    requires a < 16
    ensures Nibble(a) & 0xF == Nibble(a)
  {
  }

  lemma JoinInjective(h: bv8, l: bv8, k: bv8, m: bv8)
    requires h & 0xF == h && l & 0xF == l && k & 0xF == k && m & 0xF == m
    requires (h << 4) | l == (k << 4) | m
    ensures h == k && l == m
  {
  }

  lemma OctetInjective(c: char, d: char)
    requires c as int < 256 && d as int < 256 && Octet(c) == Octet(d)
    ensures c == d
  {
    hide Nibble;
    var m, n := c as int, d as int;
    NibbleSmall(m / 16);
    NibbleSmall(m % 16);
    NibbleSmall(n / 16);
    NibbleSmall(n % 16);
    JoinInjective(Nibble(m / 16), Nibble(m % 16), Nibble(n / 16), Nibble(n % 16));
    NibbleInjective(m / 16, n / 16);
    NibbleInjective(m % 16, n % 16);
  }

  /** The checksum of a payload as the unsigned number that is printed and compared. */
  function Crc(payload: string): (crc: nat)
    ensures crc < 65536
  {
    Checksum(Octets(payload)) as int
  }

  lemma CrcDistinguishes(p: string, q: string)
    ensures Crc(p) == Crc(q) <==> Checksum(Octets(p)) == Checksum(Octets(q))
  {
    hide Checksum;
    var x, y := Checksum(Octets(p)), Checksum(Octets(q));
    assert (x as int) as bv16 == x;
    assert (y as int) as bv16 == y;
  }

  // ---------------------------------------------------------------- hexadecimal text

  function HexChar(n: nat): (c: char)
    requires n < 16
    ensures HexValue(c) == n
  {
    ['0', '1', '2', '3', '4', '5', '6', '7', '8', '9', 'A', 'B', 'C', 'D', 'E', 'F'][n]
  }

  /** The value of one hexadecimal digit of either case, or -1. */
  function HexValue(c: char): (v: int)
    ensures -1 <= v < 16
  {
    if '0' <= c <= '9' then (c as int) - ('0' as int)
    else if 'A' <= c <= 'F' then (c as int) - ('A' as int) + 10
    else if 'a' <= c <= 'f' then (c as int) - ('a' as int) + 10
    else -1
  }

  predicate IsHex(s: string) {
    forall i :: 0 <= i < |s| ==> HexValue(s[i]) >= 0
  }

  /** The conversion %04X. */
  function Hex4(v: nat): (s: string)
    requires v < 65536
    ensures |s| == 4 && IsHex(s)
  {
    [HexChar(v / 4096), HexChar(v / 256 % 16), HexChar(v / 16 % 16), HexChar(v % 16)]
  }

  function HexNumber(s: string): nat
    requires IsHex(s)
  {
    if s == "" then 0 else HexNumber(s[..|s| - 1]) * 16 + HexValue(s[|s| - 1])
  }

  lemma HexDigitsOf(v: nat)
    requires v < 65536
    ensures v / 256 == v / 4096 * 16 + v / 256 % 16
    ensures v / 16 == v / 256 * 16 + v / 16 % 16
    ensures v == v / 16 * 16 + v % 16
  {
  }

  lemma Hex4RoundTrip(v: nat)
    requires v < 65536
    ensures HexNumber(Hex4(v)) == v
  {
    hide HexChar, HexValue;
    HexDigitsOf(v);
    var s := Hex4(v);
    assert s[..3][..2] == s[..2] && s[..2][..1] == s[..1] && s[..1][..0] == "";
    assert HexNumber(s[..1]) == v / 4096;
    assert HexNumber(s[..2]) == v / 256;
    assert HexNumber(s[..3]) == v / 16;
  }

  /** Four digits, the letters among them capital. */
  lemma Hex4IsCapital(v: nat, i: nat)
    requires v < 65536 && i < 4
    ensures '0' <= Hex4(v)[i] <= '9' || 'A' <= Hex4(v)[i] <= 'F'
  {
    CapitalDigit(v / 4096);
    CapitalDigit(v / 256 % 16);
    CapitalDigit(v / 16 % 16);
    CapitalDigit(v % 16);
    hide HexChar;
  }

  lemma CapitalDigit(n: nat)
    requires n < 16
    ensures '0' <= HexChar(n) <= '9' || 'A' <= HexChar(n) <= 'F'
  {
  }

  // ---------------------------------------------------------------- frames

  function Seal(payload: string): string {
    "@" + payload + "*" + Hex4(Crc(payload)) + "\r\n"
  }

  /** raw is a complete frame around payload, carrying the checksum text digits. */
  ghost predicate Encloses(raw: string, payload: string, digits: string) {
    && raw == "@" + payload + "*" + digits + "\r\n"
    && payload != "" && |digits| == 4 && IsHex(digits)
    && '\0' !in raw && |raw| < FRAME_MAX_LEN
  }

  datatype ParsedFrame = ParsedFrame(raw: string, payload: string, receivedCrc: nat, calculatedCrc: nat)

  datatype Verdict = Good(frame: ParsedFrame) | BadCrc | Malformed

  predicate WellFormed(raw: string) {
    && 9 <= |raw| < FRAME_MAX_LEN
    && raw[0] == '@' && raw[|raw| - 7] == '*' && raw[|raw| - 2] == '\r' && raw[|raw| - 1] == '\n'
    && IsHex(raw[|raw| - 6..|raw| - 2])
    && '\0' !in raw
  }

  function PayloadOf(raw: string): string
    requires WellFormed(raw)
  {
    raw[1..|raw| - 7]
  }

  function DigitsOf(raw: string): string
    requires WellFormed(raw)
  {
    raw[|raw| - 6..|raw| - 2]
  }

  /** The decision on the bytes between an '@' and a line feed. */
  function Judge(raw: string): Verdict {
    if !WellFormed(raw) then Malformed
    else if Crc(PayloadOf(raw)) != HexNumber(DigitsOf(raw)) then BadCrc
    else Good(ParsedFrame(raw, PayloadOf(raw), HexNumber(DigitsOf(raw)), Crc(PayloadOf(raw))))
  }

  lemma EnclosesIffWellFormed(raw: string, payload: string, digits: string)
    ensures Encloses(raw, payload, digits)
            <==> WellFormed(raw) && payload == PayloadOf(raw) && digits == DigitsOf(raw)
  {
    if Encloses(raw, payload, digits) {
      assert raw[1..|raw| - 7] == payload;
      assert raw[|raw| - 6..|raw| - 2] == digits;
    }
    if WellFormed(raw) && payload == PayloadOf(raw) && digits == DigitsOf(raw) {
      assert raw == "@" + payload + "*" + digits + "\r\n";
    }
  }

  /** A frame is accepted exactly when it encloses a payload whose checksum it carries. */
  lemma AcceptedIff(raw: string)
    ensures Judge(raw).Good?
            <==> exists payload, digits :: Encloses(raw, payload, digits) && HexNumber(digits) == Crc(payload)
    ensures Judge(raw).Good? ==> '\0' !in Judge(raw).frame.payload && Judge(raw).frame.raw == raw
  {
    if WellFormed(raw) {
      EnclosesIffWellFormed(raw, PayloadOf(raw), DigitsOf(raw));
    }
    forall payload, digits | Encloses(raw, payload, digits)
      ensures WellFormed(raw) && payload == PayloadOf(raw) && digits == DigitsOf(raw)
    {
      EnclosesIffWellFormed(raw, payload, digits);
    }
  }

  /** Every non-empty NUL-free payload that fits is accepted in its own frame. */
  lemma SealAccepted(payload: string)
    requires payload != "" && '\0' !in payload && |Seal(payload)| < FRAME_MAX_LEN
    ensures Judge(Seal(payload)) == Good(ParsedFrame(Seal(payload), payload, Crc(payload), Crc(payload)))
  {
    var digits := Hex4(Crc(payload));
    assert '\0' !in digits by {
      forall i | 0 <= i < |digits| ensures digits[i] != '\0' { assert HexValue(digits[i]) >= 0; }
    }
    assert Encloses(Seal(payload), payload, digits);
    EnclosesIffWellFormed(Seal(payload), payload, digits);
    Hex4RoundTrip(Crc(payload));
  }
}
