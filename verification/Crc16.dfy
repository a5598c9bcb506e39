/** CRC-16/CCITT-FALSE as a shift register, and the errors it is certain to catch. */
module Crc16 {

  // ---------------------------------------------------------------- the register

  function Xor(a: bv16, b: bv16): bv16 {
    a ^ b
  }

  predicate Top(a: bv16) {
    a & 0x8000 != 0
  }

  function Double(a: bv16): bv16 {
    a << 1
  }

  /** One shift of the register: polynomial x^16 + x^12 + x^5 + 1, most significant bit first. */
  function Shift(crc: bv16): bv16 {
    if Top(crc) then Xor(Double(crc), 0x1021) else Double(crc)
  }

  function ShiftBy(crc: bv16, n: nat): bv16
    decreases n
  {
    if n == 0 then crc else ShiftBy(Shift(crc), n - 1)
  }

  function Absorb(crc: bv16, b: bv8): bv16 {
    ShiftBy(Xor(crc, (b as bv16) << 8), 8)
  }

  function Register(crc: bv16, data: seq<bv8>): bv16
    decreases data
  {
    if data == [] then crc else Register(Absorb(crc, data[0]), data[1..])
  }

  /** The checksum a frame carries. */
  function Checksum(data: seq<bv8>): bv16 {
    Register(0xFFFF, data)
  }

  /** The nested byte and bit loops. */
  method Crc16CcittFalse(data: seq<bv8>) returns (crc: bv16)
    ensures crc == Checksum(data)
  {
    crc := 0xFFFF;
    for i := 0 to |data|
      invariant Register(crc, data[i..]) == Checksum(data)
    {
      assert data[i..][1..] == data[i + 1..];
      ghost var next := Absorb(crc, data[i]);
      crc := crc ^ ((data[i] as bv16) << 8);
      for bit := 0 to 8
        invariant ShiftBy(crc, 8 - bit) == next
      {
        if crc & 0x8000 != 0 {
          crc := (crc << 1) ^ 0x1021;
        } else {
          crc := crc << 1;
        }
      }
    }
  }

  // ---------------------------------------------------------------- the bit-serial view

  /** The bits of a byte string in transmission order, most significant bit of each byte first. */
  function Bits(data: seq<bv8>): (bits: seq<bool>)
    ensures |bits| == 8 * |data|
  {
    if data == [] then [] else ByteBits(data[0]) + Bits(data[1..])
  }

  function ByteBits(b: bv8): (bits: seq<bool>)
    ensures |bits| == 8
  {
    [b & 0x80 != 0, b & 0x40 != 0, b & 0x20 != 0, b & 0x10 != 0,
     b & 0x08 != 0, b & 0x04 != 0, b & 0x02 != 0, b & 0x01 != 0]
  }

  function Entering(bit: bool): bv16 {
    if bit then 0x8000 else 0
  }

  function Clock(crc: bv16, bit: bool): bv16 {
    Shift(Xor(crc, Entering(bit)))
  }

  function Serial(crc: bv16, bits: seq<bool>): bv16
    decreases bits
  {
    if bits == [] then crc else Serial(Clock(crc, bits[0]), bits[1..])
  }

  lemma {:induction false} SerialConcat(crc: bv16, a: seq<bool>, b: seq<bool>)
    ensures Serial(crc, a + b) == Serial(Serial(crc, a), b)
    decreases a
  {
    if a == [] {
      assert a + b == b;
    } else {
      assert (a + b)[1..] == a[1..] + b;
      SerialConcat(Clock(crc, a[0]), a[1..], b);
    }
  }

  lemma XorAssociates(a: bv16, b: bv16, c: bv16)
    ensures Xor(Xor(a, b), c) == Xor(a, Xor(b, c))
  {
  }

  lemma XorCommutes(a: bv16, b: bv16)
    ensures Xor(a, b) == Xor(b, a)
  {
  }

  lemma XorSwap(a: bv16, p: bv16, b: bv16, q: bv16)
    ensures Xor(Xor(a, p), Xor(b, q)) == Xor(Xor(a, b), Xor(p, q))
  {
    hide Xor;
    XorAssociates(a, p, Xor(b, q));
    XorAssociates(p, b, q);
    XorCommutes(p, b);
    XorAssociates(b, p, q);
    XorAssociates(a, b, Xor(p, q));
  }

  lemma XorZero(a: bv16)
    ensures Xor(a, 0) == a && Xor(0, a) == a
  {
  }

  lemma XorCancels(a: bv16, b: bv16)
    ensures Xor(a, b) == 0 <==> a == b
  {
  }

  function Feedback(carry: bool): bv16 {
    if carry then 0x1021 else 0
  }

  lemma ShiftParts(a: bv16)
    ensures Shift(a) == Xor(Double(a), Feedback(Top(a)))
  {
    hide Xor, Double, Top;
    XorZero(Double(a));
  }

  lemma DoubleIsLinear(a: bv16, b: bv16)
    ensures Double(Xor(a, b)) == Xor(Double(a), Double(b))
  {
  }

  lemma TopIsLinear(a: bv16, b: bv16)
    ensures Top(Xor(a, b)) == (Top(a) != Top(b))
  {
  }

  lemma FeedbackXor(x: bool, y: bool)
    ensures Feedback(x != y) == Xor(Feedback(x), Feedback(y))
  {
  }

  lemma ShiftIsLinear(a: bv16, b: bv16)
    ensures Shift(Xor(a, b)) == Xor(Shift(a), Shift(b))
  {
    hide *;
    ShiftParts(a);
    ShiftParts(b);
    ShiftParts(Xor(a, b));
    DoubleIsLinear(a, b);
    TopIsLinear(a, b);
    FeedbackXor(Top(a), Top(b));
    XorSwap(Double(a), Feedback(Top(a)), Double(b), Feedback(Top(b)));
  }

  lemma EnteringXor(x: bool, y: bool)
    ensures Entering(x != y) == Xor(Entering(x), Entering(y))
  {
  }

  lemma ClockIsLinear(a: bv16, b: bv16, x: bool, y: bool)
    ensures Clock(Xor(a, b), x != y) == Xor(Clock(a, x), Clock(b, y))
  {
    hide Xor, Shift, Entering;
    XorSwap(a, Entering(x), b, Entering(y));
    EnteringXor(x, y);
    ShiftIsLinear(Xor(a, Entering(x)), Xor(b, Entering(y)));
  }

  lemma {:induction false} ShiftByIsLinear(a: bv16, b: bv16, n: nat)
    ensures ShiftBy(Xor(a, b), n) == Xor(ShiftBy(a, n), ShiftBy(b, n))
    decreases n
  {
    hide Xor, Shift;
    if n > 0 {
      ShiftIsLinear(a, b);
      ShiftByIsLinear(Shift(a), Shift(b), n - 1);
    }
  }

  /** Where two equally long bit strings differ. */
  function Difference(p: seq<bool>, q: seq<bool>): (d: seq<bool>)
    requires |p| == |q|
    ensures |d| == |p|
    ensures forall i :: 0 <= i < |p| ==> d[i] == (p[i] != q[i])
  {
    seq(|p|, i requires 0 <= i < |p| => p[i] != q[i])
  }

  /** The register is a linear map of its start value and its input over GF(2). */
  lemma {:induction false} SerialIsLinear(a: bv16, b: bv16, p: seq<bool>, q: seq<bool>)
    requires |p| == |q|
    ensures Serial(Xor(a, b), Difference(p, q)) == Xor(Serial(a, p), Serial(b, q))
    decreases p
  {
    hide Xor, Clock;
    if p == [] {
    } else {
      var d := Difference(p, q);
      assert d[1..] == Difference(p[1..], q[1..]);
      ClockIsLinear(a, b, p[0], q[0]);
      SerialIsLinear(Clock(a, p[0]), Clock(b, q[0]), p[1..], q[1..]);
    }
  }

  // ---------------------------------------------------------------- bytes as bits

  /** The n most significant bits of a byte, in the position they are XORed into the register. */
  function Leading(b: bv8, n: nat): bv16
    requires n <= 8
    decreases n
  {
    if n == 0 then 0 else Xor(Leading(b, n - 1), Placed(b, n - 1))
  }

  function Placed(b: bv8, i: nat): bv16
    requires i < 8
  {
    if ByteBits(b)[i] then Unit(i) else 0
  }

  function Unit(i: nat): bv16
    requires i < 8
  {
    [0x8000, 0x4000, 0x2000, 0x1000, 0x0800, 0x0400, 0x0200, 0x0100][i]
  }

  lemma UnitReachesTop(i: nat)
    requires i < 8
    ensures ShiftBy(Unit(i), i) == 0x8000
  {
    if i > 0 {
      assert Shift(Unit(i)) == Unit(i - 1);
      UnitReachesTop(i - 1);
    }
  }

  lemma {:induction false} ShiftByOnce(crc: bv16, n: nat)
    ensures ShiftBy(crc, n + 1) == Shift(ShiftBy(crc, n))
    decreases n
  {
    if n > 0 {
      ShiftByOnce(Shift(crc), n - 1);
    }
  }

  lemma {:induction false} SerialOnce(crc: bv16, bits: seq<bool>, bit: bool)
    ensures Serial(crc, bits + [bit]) == Clock(Serial(crc, bits), bit)
  {
    SerialConcat(crc, bits, [bit]);
    assert [bit][1..] == [];
    assert Serial(Serial(crc, bits), [bit]) == Clock(Serial(crc, bits), bit);
  }

  lemma ShiftByZero(n: nat)
    ensures ShiftBy(0, n) == 0
  {
    if n > 0 {
      assert Shift(0) == 0;
      ShiftByZero(n - 1);
    }
  }

  lemma PlacedEnters(b: bv8, i: nat)
    requires i < 8
    ensures ShiftBy(Placed(b, i), i) == Entering(ByteBits(b)[i])
  {
    hide Shift;
    UnitReachesTop(i);
    ShiftByZero(i);
  }

  lemma {:induction false} AbsorbPrefix(crc: bv16, b: bv8, n: nat)
    requires n <= 8
    ensures Serial(crc, ByteBits(b)[..n]) == ShiftBy(Xor(crc, Leading(b, n)), n)
    decreases n
  {
    hide Xor, Shift, ByteBits, Placed;
    if n == 0 {
      XorZero(crc);
    } else {
      var k := n - 1;
      AbsorbPrefix(crc, b, k);
      assert ByteBits(b)[..n] == ByteBits(b)[..k] + [ByteBits(b)[k]];
      SerialOnce(crc, ByteBits(b)[..k], ByteBits(b)[k]);
      PlacedEnters(b, k);
      XorAssociates(crc, Leading(b, k), Placed(b, k));
      ShiftByIsLinear(Xor(crc, Leading(b, k)), Placed(b, k), k);
      ShiftByOnce(Xor(crc, Leading(b, n)), k);
    }
  }

  function PlacedMask(b: bv8, i: nat): bv16
    requires i < 8
  {
    ((b as bv16) << 8) & Unit(i)
  }

  lemma PlacedIsMask(b: bv8, i: nat)
    requires i < 8
    ensures Placed(b, i) == PlacedMask(b, i)
  {
  }

  lemma SplitWord(w: bv16)
    ensures (w & 0x8000) ^ (w & 0x4000) ^ (w & 0x2000) ^ (w & 0x1000) ^ (w & 0x0800) ^ (w & 0x0400)
            ^ (w & 0x0200) ^ (w & 0x0100) == w & 0xFF00
  {
  }

  lemma LeadingIsWhole(b: bv8)
    ensures Leading(b, 8) == (b as bv16) << 8
  {
    var w := (b as bv16) << 8;
    assert w & 0xFF00 == w;
    SplitWord(w);
    LeadingUnrolled(b);
    forall i | 0 <= i < 8 ensures Placed(b, i) == PlacedMask(b, i) { PlacedIsMask(b, i); }
  }

  lemma LeadingUnrolled(b: bv8)
    ensures Leading(b, 8) == Xor(Xor(Xor(Xor(Xor(Xor(Xor(Placed(b, 0), Placed(b, 1)), Placed(b, 2)), Placed(b, 3)),
                                             Placed(b, 4)), Placed(b, 5)), Placed(b, 6)), Placed(b, 7))
  {
    hide Placed, Xor;
    XorZero(Placed(b, 0));
    assert Leading(b, 1) == Placed(b, 0);
    assert Leading(b, 4) == Xor(Xor(Xor(Placed(b, 0), Placed(b, 1)), Placed(b, 2)), Placed(b, 3));
  }

  /** Absorbing a byte is clocking in its eight bits. */
  lemma AbsorbIsSerial(crc: bv16, b: bv8)
    ensures Absorb(crc, b) == Serial(crc, ByteBits(b))
  {
    AbsorbPrefix(crc, b, 8);
    LeadingIsWhole(b);
    assert ByteBits(b)[..8] == ByteBits(b);
  }

  lemma {:induction false} RegisterIsSerial(crc: bv16, data: seq<bv8>)
    ensures Register(crc, data) == Serial(crc, Bits(data))
    decreases data
  {
    if data == [] {
    } else {
      AbsorbIsSerial(crc, data[0]);
      RegisterIsSerial(Absorb(crc, data[0]), data[1..]);
      SerialConcat(crc, ByteBits(data[0]), Bits(data[1..]));
    }
  }

  lemma {:induction false} BitsAt(data: seq<bv8>, i: nat, j: nat)
    requires i < |data| && j < 8
    ensures Bits(data)[8 * i + j] == ByteBits(data[i])[j]
  {
    if i > 0 {
      BitsAt(data[1..], i - 1, j);
    }
  }

  lemma ByteBitsInjective(a: bv8, b: bv8)
    requires ByteBits(a) == ByteBits(b)
    ensures a == b
  {
    forall j | 0 <= j < 8 ensures ByteBits(a)[j] == ByteBits(b)[j] {}
    assert ByteBits(a)[0] == ByteBits(b)[0] && ByteBits(a)[1] == ByteBits(b)[1];
    assert ByteBits(a)[2] == ByteBits(b)[2] && ByteBits(a)[3] == ByteBits(b)[3];
    assert ByteBits(a)[4] == ByteBits(b)[4] && ByteBits(a)[5] == ByteBits(b)[5];
    assert ByteBits(a)[6] == ByteBits(b)[6] && ByteBits(a)[7] == ByteBits(b)[7];
  }

  lemma {:induction false} BitsInjective(p: seq<bv8>, q: seq<bv8>)
    requires |p| == |q| && Bits(p) == Bits(q)
    ensures p == q
  {
    forall i | 0 <= i < |p|
      ensures p[i] == q[i]
    {
      forall j | 0 <= j < 8
        ensures ByteBits(p[i])[j] == ByteBits(q[i])[j]
      {
        BitsAt(p, i, j);
        BitsAt(q, i, j);
      }
      ByteBitsInjective(p[i], q[i]);
    }
  }

  // ---------------------------------------------------------------- what the checksum detects

  /** No set bit outside positions k .. k + 15. */
  ghost predicate WithinBurst(d: seq<bool>, k: nat) {
    forall i :: 0 <= i < |d| && d[i] ==> k <= i < k + 16
  }

  ghost predicate AllClear(d: seq<bool>) {
    forall i :: 0 <= i < |d| ==> !d[i]
  }

  lemma {:induction false} SilentInput(crc: bv16, d: seq<bool>)
    requires AllClear(d)
    ensures Serial(crc, d) == 0 <==> crc == 0
    decreases d
  {
    if d == [] {
    } else {
      assert AllClear(d[1..]);
      assert Clock(crc, false) == 0 <==> crc == 0;
      SilentInput(Clock(crc, d[0]), d[1..]);
    }
  }

  /** The low 16 - n bits. */
  function LowMask(n: nat): bv16
    requires n < 16
  {
    [0xFFFF, 0x7FFF, 0x3FFF, 0x1FFF, 0x0FFF, 0x07FF, 0x03FF, 0x01FF,
     0x00FF, 0x007F, 0x003F, 0x001F, 0x000F, 0x0007, 0x0003, 0x0001][n]
  }

  lemma ClockBack(crc: bv16, bit: bool, mask: bv16)
    requires mask & 1 == 1
    requires Clock(crc, bit) & mask == 0
    ensures crc & (mask >> 1) == 0
  {
  }

  lemma MaskShrinks(n: nat)
    requires n < 15
    ensures LowMask(n) & 1 == 1 && LowMask(n) >> 1 == LowMask(n + 1)
  {
  }

  /** Reaching zero in n clocks means the low 16 - n bits were already zero. */
  lemma {:induction false} ZeroNeedsLowBits(crc: bv16, bits: seq<bool>)
    requires |bits| < 16
    requires Serial(crc, bits) == 0
    ensures crc & LowMask(|bits|) == 0
    decreases bits
  {
    if bits == [] {
    } else {
      hide Clock;
      var n := |bits| - 1;
      ZeroNeedsLowBits(Clock(crc, bits[0]), bits[1..]);
      MaskShrinks(n);
      ClockBack(crc, bits[0], LowMask(n));
    }
  }

  /** A burst of at most 16 bits never cancels. */
  lemma {:induction false} BurstSurvives(d: seq<bool>, k: nat)
    requires WithinBurst(d, k) && !AllClear(d)
    ensures Serial(0, d) != 0
    decreases d
  {
    if !d[0] {
      assert Clock(0, d[0]) == 0;
      forall i | 0 <= i < |d[1..]| && d[1..][i]
        ensures k <= i + 1 < k + 16
      {
        assert d[i + 1];
      }
      var s :| 0 <= s < |d| && d[s];
      assert d[1..][s - 1];
      BurstSurvives(d[1..], if k == 0 then 0 else k - 1);
    } else {
      assert k == 0;
      var tail := d[1..];
      var n := if |tail| < 15 then |tail| else 15;
      assert tail == tail[..n] + tail[n..];
      SerialConcat(Clock(0, true), tail[..n], tail[n..]);
      forall i | 0 <= i < |tail[n..]|
        ensures !tail[n..][i]
      {
        assert tail[n..][i] == d[1 + n + i];
      }
      SilentInput(Serial(Clock(0, true), tail[..n]), tail[n..]);
      if Serial(Clock(0, true), tail[..n]) == 0 {
        ZeroNeedsLowBits(Clock(0, true), tail[..n]);
        MaskKeepsUnit(n);
      }
    }
  }

  lemma MaskKeepsUnit(n: nat)
    requires n < 16
    ensures Clock(0, true) & LowMask(n) != 0
  {
  }

  lemma DifferenceDecides(p: seq<bv8>, q: seq<bv8>)
    requires |p| == |q|
    ensures Checksum(p) == Checksum(q) <==> Serial(0, Difference(Bits(p), Bits(q))) == 0
  {
    hide Xor;
    RegisterIsSerial(0xFFFF, p);
    RegisterIsSerial(0xFFFF, q);
    XorCancels(0xFFFF, 0xFFFF);
    SerialIsLinear(0xFFFF, 0xFFFF, Bits(p), Bits(q));
    XorCancels(Checksum(p), Checksum(q));
  }

  /** Every corruption confined to 16 consecutive bits changes the checksum, wherever those bits lie. */
  lemma DetectsBurst(p: seq<bv8>, q: seq<bv8>, k: nat)
    requires |p| == |q| && p != q
    requires WithinBurst(Difference(Bits(p), Bits(q)), k)
    ensures Checksum(p) != Checksum(q)
  {
    var d := Difference(Bits(p), Bits(q));
    if AllClear(d) {
      forall i | 0 <= i < |Bits(p)| ensures Bits(p)[i] == Bits(q)[i] { assert !d[i]; }
      BitsInjective(p, q);
      assert false;
    }
    BurstSurvives(d, k);
    DifferenceDecides(p, q);
  }

  /** In particular every corruption of one byte or of two neighbouring bytes. */
  lemma DetectsTwoBytes(p: seq<bv8>, q: seq<bv8>, k: nat)
    requires |p| == |q| && p != q
    requires forall i :: 0 <= i < |p| && i != k && i != k + 1 ==> p[i] == q[i]
    ensures Checksum(p) != Checksum(q)
  {
    var d := Difference(Bits(p), Bits(q));
    forall i | 0 <= i < |d| && d[i]
      ensures 8 * k <= i < 8 * k + 16
    {
      assert i == 8 * (i / 8) + i % 8;
      BitsAt(p, i / 8, i % 8);
      BitsAt(q, i / 8, i % 8);
      assert i / 8 == k || i / 8 == k + 1;
    }
    DetectsBurst(p, q, 8 * k);
  }

  predicate OddNibble(n: bv16) {
    n == 1 || n == 2 || n == 4 || n == 7 || n == 8 || n == 11 || n == 13 || n == 14
  }

  /** Whether nibble i of the register has an odd number of set bits. */
  predicate OddAt(x: bv16, i: nat)
    requires i < 4
  {
    OddNibble(if i == 0 then x & 0xF else if i == 1 then (x >> 4) & 0xF else if i == 2 then (x >> 8) & 0xF else x >> 12)
  }

  /** The most significant bit of nibble i, which a shift moves to nibble i + 1. */
  predicate CarryAt(x: bv16, i: nat)
    requires i < 4
  {
    x & (if i == 0 then 0x8 else if i == 1 then 0x80 else if i == 2 then 0x800 else 0x8000) != 0
  }

  /** Whether the register has an odd number of set bits. */
  predicate Parity(x: bv16) {
    (OddAt(x, 0) != OddAt(x, 1)) != (OddAt(x, 2) != OddAt(x, 3))
  }

  lemma ShiftNibble0(a: bv16)
    ensures OddAt(Shift(a), 0) == ((OddAt(a, 0) != CarryAt(a, 0)) != CarryAt(a, 3))
  {
  }

  lemma ShiftNibble1(a: bv16)
    ensures OddAt(Shift(a), 1) == (((OddAt(a, 1) != CarryAt(a, 1)) != CarryAt(a, 0)) != CarryAt(a, 3))
  {
  }

  lemma ShiftNibble2(a: bv16)
    ensures OddAt(Shift(a), 2) == ((OddAt(a, 2) != CarryAt(a, 2)) != CarryAt(a, 1))
  {
  }

  lemma ShiftNibble3(a: bv16)
    ensures OddAt(Shift(a), 3) == (((OddAt(a, 3) != CarryAt(a, 3)) != CarryAt(a, 2)) != CarryAt(a, 3))
  {
  }

  /** The polynomial has an even number of terms, so a shift keeps the parity of the register. */
  lemma ShiftParity(a: bv16)
    ensures Parity(Shift(a)) == Parity(a)
  {
    hide OddAt, CarryAt, Shift;
    ShiftNibble0(a);
    ShiftNibble1(a);
    ShiftNibble2(a);
    ShiftNibble3(a);
  }

  lemma TopBitLow(a: bv16)
    ensures OddAt(Xor(a, 0x8000), 0) == OddAt(a, 0) && OddAt(Xor(a, 0x8000), 1) == OddAt(a, 1)
    ensures OddAt(Xor(a, 0x8000), 2) == OddAt(a, 2)
  {
  }

  lemma TopBitHigh(a: bv16)
    ensures OddAt(Xor(a, 0x8000), 3) != OddAt(a, 3)
  {
  }

  lemma ClockParity(crc: bv16, bit: bool)
    ensures Parity(Clock(crc, bit)) == (Parity(crc) != bit)
  {
    hide OddAt, Shift, Xor;
    ShiftParity(Xor(crc, Entering(bit)));
    if bit {
      TopBitLow(crc);
      TopBitHigh(crc);
    } else {
      XorZero(crc);
    }
  }

  function Ones(d: seq<bool>): nat {
    if d == [] then 0 else (if d[0] then 1 else 0) + Ones(d[1..])
  }

  lemma {:induction false} SerialParity(crc: bv16, d: seq<bool>)
    ensures Parity(Serial(crc, d)) == (Parity(crc) != (Ones(d) % 2 == 1))
    decreases d
  {
    hide Parity, Clock;
    if d == [] {
    } else {
      ClockParity(crc, d[0]);
      SerialParity(Clock(crc, d[0]), d[1..]);
    }
  }

  /** Every corruption that flips an odd number of bits changes the checksum. */
  lemma DetectsOddFlips(p: seq<bv8>, q: seq<bv8>)
    requires |p| == |q|
    requires Ones(Difference(Bits(p), Bits(q))) % 2 == 1
    ensures Checksum(p) != Checksum(q)
  {
    SerialParity(0, Difference(Bits(p), Bits(q)));
    assert !Parity(0);
    DifferenceDecides(p, q);
  }
}
