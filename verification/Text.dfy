/** C strings and the decimal text that snprintf writes. */
module Text {

  datatype Option<+T> = None | Some(value: T)

  /** The first position of c, or the length when c does not occur. */
  function Find(s: string, c: char): (i: nat)
    ensures i <= |s|
    ensures i < |s| ==> s[i] == c
    ensures c !in s[..i]
  {
    if s == [] || s[0] == c then 0 else
      var k := Find(s[1..], c);
      assert s[..k + 1] == [s[0]] + s[1..][..k];
      k + 1
  }

  /** A byte stream that arrived in pieces. */
  function Joined(chunks: seq<string>): string {
    if chunks == [] then "" else chunks[0] + Joined(chunks[1..])
  }

  /** What strcmp, strlen, strcpy and %s see of the bytes in a buffer. */
  function CString(s: string): (t: string)
    ensures '\0' !in t
    ensures '\0' !in s ==> t == s
    ensures |t| <= |s|
  {
    s[..Find(s, '\0')]
  }

  lemma {:induction false} FindUnique(s: string, c: char, i: nat)
    requires i <= |s| && c !in s[..i] && (i < |s| ==> s[i] == c)
    ensures Find(s, c) == i
  {
    assert i > 0 ==> s[0] == s[..i][0];
    if i > 0 && s[0] != c {
      assert s[1..][..i - 1] == s[..i][1..];
      FindUnique(s[1..], c, i - 1);
    }
  }

  /** isspace in the C locale. */
  predicate IsSpace(c: char) {
    c == ' ' || '\t' <= c <= '\r'
  }

  function SkipSpace(s: string): string {
    if s != "" && IsSpace(s[0]) then SkipSpace(s[1..]) else s
  }

  // ---------------------------------------------------------------- decimal numbers

  predicate IsDigit(c: char) {
    '0' <= c <= '9'
  }

  predicate AllDigits(s: string) {
    forall i :: 0 <= i < |s| ==> IsDigit(s[i])
  }

  function DigitChar(d: nat): (c: char)
    requires d < 10
    ensures IsDigit(c) && DigitOf(c) == d
  {
    ['0', '1', '2', '3', '4', '5', '6', '7', '8', '9'][d]
  }

  function DigitOf(c: char): (d: nat)
    requires IsDigit(c)
    ensures d < 10
  {
    (c as int) - ('0' as int)
  }

  /** The value of a digit string, most significant digit first. */
  function Value(s: string): nat
    requires AllDigits(s)
  {
    if s == "" then 0 else Value(s[..|s| - 1]) * 10 + DigitOf(s[|s| - 1])
  }

  /** The conversion %u. */
  function Dec(n: nat): (s: string)
    ensures s != "" && AllDigits(s)
    ensures Value(s) == n
  {
    if n < 10 then
      assert [DigitChar(n)][..0] == "";
      [DigitChar(n)]
    else
      var s := Dec(n / 10) + [DigitChar(n % 10)];
      assert s[..|s| - 1] == Dec(n / 10);
      s
  }

  lemma {:induction false} DecLength(n: nat, k: nat)
    requires 1 <= k && n < Power10(k)
    ensures |Dec(n)| <= k
    decreases k
  {
    if n >= 10 {
      assert k > 1;
      assert Power10(k) == 10 * Power10(k - 1);
      DecLength(n / 10, k - 1);
    }
  }

  function Power10(k: nat): nat {
    if k == 0 then 1 else 10 * Power10(k - 1)
  }

  /** The conversion %d. */
  function SignedDec(n: int): (s: string)
    ensures |s| > 0
  {
    if n < 0 then "-" + Dec(-n) else Dec(n)
  }

  /** n in exactly k digits, with leading zeros. */
  function Pad(n: nat, k: nat): (s: string)
    requires n < Power10(k)
    ensures |s| == k && AllDigits(s)
    ensures Value(s) == n
    decreases k
  {
    if k == 0 then "" else
      var s := Pad(n / 10, k - 1) + [DigitChar(n % 10)];
      assert s[..k - 1] == Pad(n / 10, k - 1);
      s
  }

  lemma Million()
    ensures Power10(6) == 1000000
  {
    assert Power10(3) == 1000;
    assert Power10(6) == 10 * (10 * (10 * Power10(3)));
  }

  /** The conversion %06u of a number below one million. */
  function Pad6(n: nat): (s: string)
    requires n < 1000000
    ensures |s| == 6 && AllDigits(s)
    ensures Value(s) == n
  {
    Million();
    Pad(n, 6)
  }

  const UINT32_RANGE := 0x1_0000_0000

  type Int32 = n: int | -0x8000_0000 <= n < 0x8000_0000

  lemma Int32Text(n: Int32)
    ensures |SignedDec(n)| <= 11 && '\0' !in SignedDec(n)
  {
    assert Power10(5) == 100000;
    assert Power10(10) == 10 * (10 * (10 * (10 * (10 * Power10(5)))));
    var magnitude: int := if n < 0 then -(n as int) else n as int;
    DecLength(magnitude, 10);
    assert !IsDigit('\0');
  }

  /** The conversion of an unsigned value to int on the two's complement targets the gateway is built for. */
  function ToInt32(n: int): Int32 {
    var m := n % 0x1_0000_0000;
    if m < 0x8000_0000 then m else m - 0x1_0000_0000
  }
}
