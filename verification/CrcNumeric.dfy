/**
 The check word as the firmware computes it, on numbers: start from 0xFFFF, add each
 byte by exclusive-or, then eight times halve and, when the bit that fell out was set,
 add 0xA001. The bit register of the other modules is this computation.
 */
module CrcNumeric {
  import opened Crc16

  // Exclusive-or of two numbers, bit by bit.
  function XorNumber(a: nat, b: nat): nat
    decreases a + b
  {
    if a == 0 && b == 0 then 0
    else (if a % 2 != b % 2 then 1 else 0) + 2 * XorNumber(a / 2, b / 2)
  }

  function HalveNumber(crc: nat): nat {
    if crc % 2 == 1 then XorNumber(crc / 2, 0xA001) else crc / 2
  }

  function HalveTimes(crc: nat, n: nat): nat
    decreases n, crc
  {
    if n == 0 then crc else HalveTimes(HalveNumber(crc), n - 1)
  }

  function CrcNumber(crc: nat, bytes: seq<Byte>): nat
    decreases bytes
  {
    if bytes == [] then crc else CrcNumber(HalveTimes(XorNumber(crc, bytes[0]), 8), bytes[1..])
  }

  // ------------------------------------------------------------------- the bits behind

  lemma {:induction false} XorStep(a: nat, b: nat)
    ensures XorNumber(a, b) == (if a % 2 != b % 2 then 1 else 0) + 2 * XorNumber(a / 2, b / 2)
  {}

  lemma {:induction false} XorIsNumber(x: BitString, y: BitString)
    requires |x| == |y|
    ensures FromBits(XorBits(x, y)) == XorNumber(FromBits(x), FromBits(y))
  {
    if x != [] {
      var xs, ys := FromBits(x[1..]), FromBits(y[1..]);
      XorIsNumber(x[1..], y[1..]);
      assert XorBits(x, y)[1..] == XorBits(x[1..], y[1..]);
      XorStep(FromBits(x), FromBits(y));
      Halved(x[0], xs);
      Halved(y[0], ys);
      hide XorNumber;
    }
  }

  lemma {:induction false} Halved(bit: bool, rest: nat)
    ensures var n := (if bit then 1 else 0) + 2 * rest;
      n / 2 == rest && n % 2 == if bit then 1 else 0
  {}

  lemma {:induction false} ZerosAreNothing(n: nat)
    ensures FromBits(Zeros(n)) == 0
  {
    if n > 0 {
      assert Zeros(n)[1..] == Zeros(n - 1);
      ZerosAreNothing(n - 1);
    }
  }

  // A byte in the low half of a register is its own number.
  lemma {:induction false} ByteInRegister(b: Byte)
    ensures FromBits(ToBits(b, 8) + Zeros(8)) == b
  {
    FromBitsConcat(ToBits(b, 8), Zeros(8));
    ZerosAreNothing(8);
    NumberBelow256(b);
  }

  lemma {:induction false} NumberBelow256(b: Byte)
    ensures FromBits(ToBits(b, 8)) == b
  {
    assert Pow2(8) == 256;
    NumberRoundTrip(b, 8);
  }

  lemma {:induction false} FourBits(a: bool, b: bool, c: bool, d: bool)
    ensures FromBits([a, b, c, d])
      == (if a then 1 else 0) + (if b then 2 else 0) + (if c then 4 else 0) + (if d then 8 else 0)
  {
    assert [d][1..] == [] && FromBits([d]) == if d then 1 else 0;
    assert [c, d][1..] == [d] && FromBits([c, d]) == (if c then 1 else 0) + 2 * FromBits([d]);
    assert [b, c, d][1..] == [c, d] && FromBits([b, c, d]) == (if b then 1 else 0) + 2 * FromBits([c, d]);
    assert [a, b, c, d][1..] == [b, c, d];
    assert FromBits([a, b, c, d]) == (if a then 1 else 0) + 2 * FromBits([b, c, d]);
  }

  lemma {:induction false} SixteenBits(x: BitString, y: BitString, z: BitString, w: BitString)
    requires |x| == |y| == |z| == |w| == 4
    ensures FromBits(x + (y + (z + w)))
      == FromBits(x) + 16 * FromBits(y) + 256 * FromBits(z) + 4096 * FromBits(w)
  {
    assert Pow2(4) == 16;
    FromBitsConcat(z, w);
    FromBitsConcat(y, z + w);
    FromBitsConcat(x, y + (z + w));
    hide FromBits;
    hide Pow2;
  }

  // The two constants of the register are the two numbers.
  lemma {:induction false} InitialNumber()
    ensures FromBits(INITIAL) == 0xFFFF
  {
    var ones: BitString := [true, true, true, true];
    FourBits(true, true, true, true);
    SixteenBits(ones, ones, ones, ones);
    assert INITIAL == ones + (ones + (ones + ones));
    hide FromBits;
  }

  lemma {:induction false} PolynomialNumber()
    ensures FromBits(POLYNOMIAL) == 0xA001
  {
    var none: BitString := [false, false, false, false];
    var low: BitString := [true, false, false, false];
    var high: BitString := [false, true, false, true];
    FourBits(false, false, false, false);
    FourBits(true, false, false, false);
    FourBits(false, true, false, true);
    SixteenBits(low, none, none, high);
    assert POLYNOMIAL == low + (none + (none + high));
    hide FromBits;
  }

  // ------------------------------------------------------------------ the refinement

  lemma {:induction false} StepIsHalve(c: Register)
    ensures FromBits(Step(c)) == HalveNumber(FromBits(c))
  {
    var shifted := ShiftRight(c);
    ShiftIsHalf(c);
    XorIsNumber(shifted, POLYNOMIAL);
    PolynomialNumber();
    hide XorNumber;
    hide FromBits;
    hide XorBits;
  }

  lemma {:induction false} ShiftIsHalf(c: Register)
    ensures FromBits(ShiftRight(c)) == FromBits(c) / 2
    ensures FromBits(c) % 2 == if c[0] then 1 else 0
  {
    var rest := c[1..];
    ZerosAreNothing(1);
    assert Zeros(1) == [false];
    FromBitsConcat(rest, [false]);
    TimesNothing(Pow2(|rest|));
    Halved(c[0], FromBits(rest));
    assert FromBits(c) == (if c[0] then 1 else 0) + 2 * FromBits(rest);
    hide FromBits;
    hide Pow2;
  }

  lemma {:induction false} TimesNothing(n: nat)
    ensures n * 0 == 0
  {}

  lemma {:induction false} StepsAreHalves(c: Register, n: nat)
    ensures FromBits(Steps(c, n)) == HalveTimes(FromBits(c), n)
    decreases n
  {
    hide Step;
    hide HalveNumber;
    hide FromBits;
    if n > 0 {
      StepIsHalve(c);
      StepsAreHalves(Step(c), n - 1);
    }
  }

  lemma {:induction false} UpdateIsNumber(c: Register, bytes: seq<Byte>)
    ensures FromBits(Update(c, bytes)) == CrcNumber(FromBits(c), bytes)
    decreases bytes
  {
    hide FromBits;
    hide XorNumber;
    hide Steps;
    hide HalveTimes;
    hide ToBits;
    if bytes != [] {
      var w := ToBits(bytes[0], 8) + Zeros(8);
      ByteInRegister(bytes[0]);
      XorIsNumber(c, w);
      StepsAreHalves(XorBits(c, w), 8);
      UpdateIsNumber(Absorb(c, bytes[0]), bytes[1..]);
    }
  }

  // The main result on the check word: for every byte string it is the firmware's number.
  lemma {:induction false} ChecksumIsNumber(bytes: seq<Byte>)
    ensures Checksum(bytes) == CrcNumber(0xFFFF, bytes)
    ensures Checksum([]) == 0xFFFF
  {
    hide FromBits;
    InitialNumber();
    UpdateIsNumber(INITIAL, bytes);
    UpdateIsNumber(INITIAL, []);
  }
}
