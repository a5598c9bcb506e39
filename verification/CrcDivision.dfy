/** The checksum as the remainder of polynomial long division, and its published check value. */
module CrcDivision {
  import opened Crc16
  import opened FrameFormat

  // ---------------------------------------------------------------- long division on bits

  /** x^16 + x^12 + x^5 + 1. */
  const DIVISOR := [true, false, false, false, true, false, false, false, false, false, false, true, false, false, false, false, true]

  const WIDTH := 16

  /** Subtracts b from the front of a; the rest of a stays. */
  function XorFront(a: seq<bool>, b: seq<bool>): (d: seq<bool>)
    requires |b| <= |a|
    ensures |d| == |a|
    ensures forall i :: 0 <= i < |a| ==> d[i] == if i < |b| then a[i] != b[i] else a[i]
  {
    seq(|a|, i requires 0 <= i < |a| => if i < |b| then a[i] != b[i] else a[i])
  }

  /** Schoolbook division: the leading bit goes, with a divisor subtracted when it is set, until sixteen bits are left. */
  function Remainder(dividend: seq<bool>): (r: seq<bool>)
    requires |dividend| >= WIDTH
    ensures |r| == WIDTH
    decreases |dividend|
  {
    if |dividend| == WIDTH then dividend
    else if dividend[0] then Remainder(XorFront(dividend, DIVISOR)[1..])
    else Remainder(dividend[1..])
  }

  function Repeat(bit: bool, n: nat): (bits: seq<bool>)
    ensures |bits| == n && forall i :: 0 <= i < n ==> bits[i] == bit
  {
    seq(n, _ => bit)
  }

  /** The message followed by sixteen zeros, its first sixteen bits complemented. */
  function Dividend(message: seq<bool>): (d: seq<bool>)
    ensures |d| == |message| + WIDTH
  {
    XorFront(message + Repeat(false, WIDTH), Repeat(true, WIDTH))
  }

  // ---------------------------------------------------------------- the register's bits

  function And(w: bv16, mask: bv16): bv16 {
    w & mask
  }

  predicate Bit(w: bv16, mask: bv16) {
    And(w, mask) != 0
  }

  function Mask(i: nat): bv16
    requires i < WIDTH
  {
    [0x8000, 0x4000, 0x2000, 0x1000, 0x0800, 0x0400, 0x0200, 0x0100,
     0x0080, 0x0040, 0x0020, 0x0010, 0x0008, 0x0004, 0x0002, 0x0001][i]
  }

  /** The bits of a word, most significant first. */
  function WordBits(w: bv16): (bits: seq<bool>)
    ensures |bits| == WIDTH
  {
    seq(WIDTH, i requires 0 <= i < WIDTH => Bit(w, Mask(i)))
  }

  predicate Above(m: bv16, n: bv16) {
    m == n << 1 && n & 0x8000 == 0
  }

  lemma DoubleAnd(w: bv16, m: bv16, n: bv16)
    requires Above(m, n)
    ensures Bit(Double(w), m) == Bit(w, n)
  {
  }

  lemma DoubleLast(w: bv16)
    ensures !Bit(Double(w), 1)
  {
  }

  lemma MaskDoubles(i: nat)
    requires i + 1 < WIDTH
    ensures Above(Mask(i), Mask(i + 1))
  {
  }

  lemma LastMask()
    ensures Mask(WIDTH - 1) == 1
  {
  }

  lemma DoubleBit(w: bv16, i: nat)
    requires i < WIDTH
    ensures Bit(Double(w), Mask(i)) == (i + 1 < WIDTH && Bit(w, Mask(i + 1)))
  {
    hide Mask, Bit, Double, Above;
    if i + 1 < WIDTH {
      MaskDoubles(i);
      DoubleAnd(w, Mask(i), Mask(i + 1));
    } else {
      LastMask();
      DoubleLast(w);
    }
  }

  lemma DoubleBits(w: bv16)
    ensures WordBits(Double(w)) == WordBits(w)[1..] + [false]
  {
    hide Double, Bit, Mask;
    forall i: nat | i < WIDTH
      ensures WordBits(Double(w))[i] == (WordBits(w)[1..] + [false])[i]
    {
      DoubleBit(w, i);
    }
  }

  predicate IsMask(m: bv16) {
    m != 0 && m & (m - 1) == 0
  }

  lemma MaskSplits(a: bv16, m: bv16)
    requires IsMask(m)
    ensures m != 0 && (And(a, m) == 0 || And(a, m) == m)
  {
  }

  lemma MaskXor(a: bv16, b: bv16, m: bv16)
    ensures And(Xor(a, b), m) == Xor(And(a, m), And(b, m))
  {
  }

  lemma XorSelf(m: bv16)
    ensures Xor(m, m) == 0
  {
  }

  lemma XorOfMasked(x: bv16, y: bv16, m: bv16)
    requires m != 0 && (x == 0 || x == m) && (y == 0 || y == m)
    ensures (Xor(x, y) != 0) == ((x != 0) != (y != 0))
  {
    hide Xor;
    XorZero(m);
    XorZero(0);
    XorSelf(m);
    XorCommutes(0, m);
  }

  lemma XorBit(a: bv16, b: bv16, m: bv16)
    requires IsMask(m)
    ensures Bit(Xor(a, b), m) == (Bit(a, m) != Bit(b, m))
  {
    hide IsMask, And, Xor;
    MaskSplits(a, m);
    MaskSplits(b, m);
    MaskXor(a, b, m);
    XorOfMasked(And(a, m), And(b, m), m);
  }

  lemma MaskIsMask(i: nat)
    requires i < WIDTH
    ensures IsMask(Mask(i))
  {
  }

  lemma XorBits(a: bv16, b: bv16)
    ensures WordBits(Xor(a, b)) == XorFront(WordBits(a), WordBits(b))
  {
    hide Xor, Bit, IsMask, Mask;
    forall i: nat | i < WIDTH
      ensures WordBits(Xor(a, b))[i] == (WordBits(a)[i] != WordBits(b)[i])
    {
      MaskIsMask(i);
      XorBit(a, b, Mask(i));
    }
  }

  lemma DivisorBit(i: nat)
    requires i < WIDTH
    ensures Bit(0x1021, Mask(i)) == DIVISOR[i + 1]
    ensures Bit(0x8000, Mask(i)) == (i == 0) && !Bit(0, Mask(i)) && Bit(0xFFFF, Mask(i))
  {
  }

  lemma DivisorBits()
    ensures WordBits(0x1021) == DIVISOR[1..]
    ensures WordBits(0x8000) == [true] + Repeat(false, 15) && WordBits(0) == Repeat(false, WIDTH)
    ensures WordBits(0xFFFF) == Repeat(true, WIDTH)
  {
    hide Bit, Mask;
    forall i: nat | i < WIDTH
      ensures WordBits(0x1021)[i] == DIVISOR[1..][i]
      ensures WordBits(0x8000)[i] == ([true] + Repeat(false, 15))[i]
      ensures !WordBits(0)[i] && WordBits(0xFFFF)[i]
    {
      DivisorBit(i);
    }
  }

  lemma PolynomialBits(w: bv16)
    ensures WordBits(Xor(w, 0x1021)) == XorFront(WordBits(w), DIVISOR[1..])
  {
    hide WordBits, Xor;
    XorBits(w, 0x1021);
    DivisorBits();
  }

  lemma EnteringBits(w: bv16, bit: bool)
    ensures WordBits(Xor(w, Entering(bit))) == [WordBits(w)[0] != bit] + WordBits(w)[1..]
  {
    hide WordBits, Xor;
    XorBits(w, Entering(bit));
    DivisorBits();
  }

  lemma ShiftBits(w: bv16)
    ensures WordBits(Shift(w))
            == if WordBits(w)[0] then XorFront(WordBits(w)[1..] + [false], DIVISOR[1..]) else WordBits(w)[1..] + [false]
  {
    hide Double, Xor;
    DoubleBits(w);
    PolynomialBits(Double(w));
  }

  /** The register's next bits, XORed into what is left of the text, are the next dividend. */
  lemma NextDividend(rest: seq<bool>, w: seq<bool>, entering: seq<bool>, d: seq<bool>)
    requires |w| == |entering| == WIDTH && |d| == |rest| + 1 && |rest| >= WIDTH
    requires entering[1..] == w[1..] && entering[0] == d[0]
    requires d[1..] == XorFront(rest, w[1..])
    ensures var shifted := if entering[0] then XorFront(entering[1..] + [false], DIVISOR[1..]) else entering[1..] + [false];
            XorFront(rest, shifted) == if d[0] then XorFront(d, DIVISOR)[1..] else d[1..]
  {
    var shifted := if entering[0] then XorFront(entering[1..] + [false], DIVISOR[1..]) else entering[1..] + [false];
    var next := if d[0] then XorFront(d, DIVISOR)[1..] else d[1..];
    forall k | 0 <= k < |rest|
      ensures XorFront(rest, shifted)[k] == next[k]
    {
      assert d[k + 1] == d[1..][k];
      if k < WIDTH {
        assert k < WIDTH - 1 ==> w[1..][k] == entering[1..][k];
        assert DIVISOR[k + 1] == DIVISOR[1..][k];
      }
    }
  }

  /** One clock of the register is one step of the division. */
  lemma ClockDivides(crc: bv16, bits: seq<bool>)
    requires bits != []
    ensures Remainder(XorFront(bits + Repeat(false, WIDTH), WordBits(crc)))
            == Remainder(XorFront(bits[1..] + Repeat(false, WIDTH), WordBits(Clock(crc, bits[0]))))
  {
    hide WordBits, Shift, Xor;
    var w := WordBits(crc);
    var d := XorFront(bits + Repeat(false, WIDTH), w);
    var entered := Xor(crc, Entering(bits[0]));
    EnteringBits(crc, bits[0]);
    ShiftBits(entered);
    var next := XorFront(bits[1..] + Repeat(false, WIDTH), WordBits(Clock(crc, bits[0])));
    assert d[0] == WordBits(entered)[0];
    var entering := WordBits(entered);
    var rest := bits[1..] + Repeat(false, WIDTH);
    assert rest == (bits + Repeat(false, WIDTH))[1..];
    assert d[1..] == XorFront(rest, w[1..]);
    NextDividend(rest, w, entering, d);
  }

  lemma {:induction false} SerialDivides(crc: bv16, bits: seq<bool>)
    ensures WordBits(Serial(crc, bits)) == Remainder(XorFront(bits + Repeat(false, WIDTH), WordBits(crc)))
    decreases bits
  {
    hide WordBits, Clock;
    if bits == [] {
      assert bits + Repeat(false, WIDTH) == Repeat(false, WIDTH);
      assert XorFront(Repeat(false, WIDTH), WordBits(crc)) == WordBits(crc);
    } else {
      ClockDivides(crc, bits);
      SerialDivides(Clock(crc, bits[0]), bits[1..]);
    }
  }

  /**
   * The checksum of any message, short ones included, is the remainder of dividing the message, its first sixteen bits
   * complemented and sixteen zeros appended, by x^16 + x^12 + x^5 + 1.
   */
  lemma ChecksumIsRemainder(data: seq<bv8>)
    ensures WordBits(Checksum(data)) == Remainder(Dividend(Bits(data)))
  {
    hide WordBits, Register, Serial, Remainder;
    RegisterIsSerial(0xFFFF, data);
    SerialDivides(0xFFFF, Bits(data));
    DivisorBits();
  }

  // ---------------------------------------------------------------- the check value

  const CHECK_TEXT := "123456789"

  lemma Check1()
    ensures Absorb(0xFFFF, 0x31) == 0xC782
  {
  }

  lemma Check2()
    ensures Absorb(0xC782, 0x32) == 0x3DBA
  {
  }

  lemma Check3()
    ensures Absorb(0x3DBA, 0x33) == 0x5BCE
  {
  }

  lemma Check4()
    ensures Absorb(0x5BCE, 0x34) == 0x5349
  {
  }

  lemma Check5()
    ensures Absorb(0x5349, 0x35) == 0x4560
  {
  }

  lemma Check6()
    ensures Absorb(0x4560, 0x36) == 0x2EF4
  {
  }

  lemma Check7()
    ensures Absorb(0x2EF4, 0x37) == 0x7718
  {
  }

  lemma Check8()
    ensures Absorb(0x7718, 0x38) == 0xA12B
  {
  }

  lemma Check9()
    ensures Absorb(0xA12B, 0x39) == 0x29B1
  {
  }

  lemma CheckOctets123()
    ensures Octet('1') == 0x31 && Octet('2') == 0x32 && Octet('3') == 0x33
  {
  }

  lemma CheckOctets456()
    ensures Octet('4') == 0x34 && Octet('5') == 0x35 && Octet('6') == 0x36
  {
  }

  lemma CheckOctets789()
    ensures Octet('7') == 0x37 && Octet('8') == 0x38 && Octet('9') == 0x39
  {
  }

  lemma CheckOctets()
    ensures Octets(CHECK_TEXT) == [0x31, 0x32, 0x33, 0x34, 0x35, 0x36, 0x37, 0x38, 0x39]
  {
    hide Octet;
    CheckOctets123();
    CheckOctets456();
    CheckOctets789();
  }

  lemma RegisterOnce(crc: bv16, b: bv8, rest: seq<bv8>)
    ensures Register(crc, [b] + rest) == Register(Absorb(crc, b), rest)
  {
    assert ([b] + rest)[1..] == rest;
  }

  /** The published check value of CRC-16/CCITT-FALSE. */
  lemma CheckValue()
    ensures Checksum(Octets(CHECK_TEXT)) == 0x29B1 && Crc(CHECK_TEXT) == 0x29B1
  {
    hide Absorb, Octets;
    CheckOctets();
    Check1(); Check2(); Check3(); Check4(); Check5(); Check6(); Check7(); Check8(); Check9();
    var data: seq<bv8> := [0x31, 0x32, 0x33, 0x34, 0x35, 0x36, 0x37, 0x38, 0x39];
    assert data[0..] == [data[0]] + data[1..];
    RegisterOnce(0xFFFF, 0x31, data[1..]);
    assert data[1..] == [data[1]] + data[2..];
    RegisterOnce(0xC782, 0x32, data[2..]);
    assert data[2..] == [data[2]] + data[3..];
    RegisterOnce(0x3DBA, 0x33, data[3..]);
    assert data[3..] == [data[3]] + data[4..];
    RegisterOnce(0x5BCE, 0x34, data[4..]);
    assert data[4..] == [data[4]] + data[5..];
    RegisterOnce(0x5349, 0x35, data[5..]);
    assert data[5..] == [data[5]] + data[6..];
    RegisterOnce(0x4560, 0x36, data[6..]);
    assert data[6..] == [data[6]] + data[7..];
    RegisterOnce(0x2EF4, 0x37, data[7..]);
    assert data[7..] == [data[7]] + data[8..];
    RegisterOnce(0x7718, 0x38, data[8..]);
    assert data[8..] == [data[8]] + data[9..];
    RegisterOnce(0xA12B, 0x39, data[9..]);
    assert data[0..] == data && data[9..] == [];
  }

  lemma JoinNibbles(h: nat, l: nat)
    requires h < 16 && l < 16
    ensures ((Nibble(h) << 4) | Nibble(l)) as int == 16 * h + l
  {
  }

  /** A character that is a byte is taken as that byte. */
  lemma OctetIsByte(c: char)
    requires c as int < 256
    ensures Octet(c) as int == c as int
  {
    hide Nibble;
    JoinNibbles(c as int / 16, c as int % 16);
  }
}
