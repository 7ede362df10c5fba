/**
 The 16-bit cyclic redundancy check shared by the C6 frame codec and the event
 history: reflected polynomial 0xA001, initial value 0xFFFF, least significant
 bit first. A 16-bit word is its sequence of bits, least significant first, so
 `crc & 1` is the first element, `crc >> 1` drops it and `^` is pointwise.

 `Update` is the byte-at-a-time register of the firmware. `Serial` is the textbook
 bit-at-a-time register. The first refines the second; the second is linear over
 exclusive-or, loses no information in a step and keeps parity. Everything the
 project says about damaged frames and damaged records rests on these facts.
 */
module Crc16 {
  type Byte = b: nat | b < 256
  type Word = w: nat | w < 65536
  type BitString = seq<bool>
  type Register = r: BitString | |r| == 16
    witness [false, false, false, false, false, false, false, false,
             false, false, false, false, false, false, false, false]

  const POLYNOMIAL: Register :=
    [true, false, false, false, false, false, false, false,
     false, false, false, false, false, true, false, true]

  const INITIAL: Register :=
    [true, true, true, true, true, true, true, true,
     true, true, true, true, true, true, true, true]

  const ZERO: Register := Zeros(16)

  // ------------------------------------------------------------ bits and numbers

  function Zeros(n: nat): (bits: BitString)
    ensures |bits| == n
    ensures forall i :: 0 <= i < n ==> !bits[i]
  {
    seq(n, i => false)
  }

  predicate IsZero(bits: BitString) {
    forall i :: 0 <= i < |bits| ==> !bits[i]
  }

  function XorBits(x: BitString, y: BitString): (z: BitString)
    requires |x| == |y|
    ensures |z| == |x|
    ensures forall i :: 0 <= i < |x| ==> z[i] == (x[i] != y[i])
  {
    seq(|x|, i requires 0 <= i < |x| == |y| => x[i] != y[i])
  }

  // The n lowest bits of w.
  function ToBits(w: nat, n: nat): (bits: BitString)
    ensures |bits| == n
  {
    if n == 0 then [] else [w % 2 != 0] + ToBits(w / 2, n - 1)
  }

  function FromBits(bits: BitString): nat {
    if bits == [] then 0 else (if bits[0] then 1 else 0) + 2 * FromBits(bits[1..])
  }

  function Pow2(n: nat): (p: nat)
    ensures p > 0
  {
    if n == 0 then 1 else 2 * Pow2(n - 1)
  }

  lemma {:induction false} NumberRoundTrip(w: nat, n: nat)
    requires w < Pow2(n)
    ensures FromBits(ToBits(w, n)) == w
  {
    if n > 0 {
      assert ToBits(w, n)[1..] == ToBits(w / 2, n - 1);
      NumberRoundTrip(w / 2, n - 1);
    }
  }

  lemma {:induction false} BitsRoundTrip(bits: BitString)
    ensures FromBits(bits) < Pow2(|bits|)
    ensures ToBits(FromBits(bits), |bits|) == bits
  {
    if bits != [] {
      var low, high := if bits[0] then 1 else 0, FromBits(bits[1..]);
      BitsRoundTrip(bits[1..]);
      assert (low + 2 * high) / 2 == high && (low + 2 * high) % 2 == low;
      assert ToBits(FromBits(bits), |bits|) == [bits[0]] + bits[1..];
    }
  }

  // Transmission order: bytes in order, the least significant bit of each first.
  function Bits(bytes: seq<Byte>): (bits: BitString)
    ensures |bits| == 8 * |bytes|
  {
    if bytes == [] then [] else ToBits(bytes[0], 8) + Bits(bytes[1..])
  }

  // ---------------------------------------------------------------- the register

  function ShiftRight(c: Register): Register { c[1..] + [false] }

  // One pass of the firmware's inner loop.
  function Step(c: Register): Register {
    if c[0] then XorBits(ShiftRight(c), POLYNOMIAL) else ShiftRight(c)
  }

  function Steps(c: Register, n: nat): Register
    decreases n, c
  {
    if n == 0 then c else Steps(Step(c), n - 1)
  }

  function Absorb(c: Register, b: Byte): Register {
    var bits := ToBits(b, 8);
    Steps(XorBits(c, bits + Zeros(8)), |bits|)
  }

  function Update(c: Register, bytes: seq<Byte>): Register
    decreases bytes
  {
    if bytes == [] then c else Update(Absorb(c, bytes[0]), bytes[1..])
  }

  function Crc(bytes: seq<Byte>): Register {
    Update(INITIAL, bytes)
  }

  // The register as the 16-bit number the firmware computes.
  function RegisterWord(r: Register): Word {
    BitsRoundTrip(r);
    assert Pow2(8) == 256;
    assert Pow2(16) == 65536;
    FromBits(r)
  }

  function Checksum(bytes: seq<Byte>): Word {
    RegisterWord(Crc(bytes))
  }

  // The firmware's nested loops over the register: bits within a byte, then bytes.
  method StepRegister(start: Register, rounds: nat) returns (crc: Register)
    ensures crc == Steps(start, rounds)
  {
    crc := start;
    for bit := 0 to rounds
      invariant Steps(crc, rounds - bit) == Steps(start, rounds)
    {
      crc := if crc[0] then XorBits(ShiftRight(crc), POLYNOMIAL) else ShiftRight(crc);
    }
  }

  method ComputeCrc(bytes: seq<Byte>) returns (crc: Register)
    ensures crc == Crc(bytes)
  {
    crc := INITIAL;
    for index := 0 to |bytes|
      invariant Update(crc, bytes[index..]) == Crc(bytes)
    {
      crc := StepRegister(XorBits(crc, ToBits(bytes[index], 8) + Zeros(8)), 8);
      assert bytes[index..][1..] == bytes[index + 1..];
    }
  }

  method ComputeChecksum(bytes: seq<Byte>) returns (checksum: Word)
    ensures checksum == Checksum(bytes)
  {
    var crc := ComputeCrc(bytes);
    checksum := RegisterWord(crc);
  }

  // ---------------------------------------------------------------- the reference

  // The bit-serial register: one message bit meets the lowest register bit.
  function Feed(c: Register, bit: bool): Register {
    Step(c[0 := c[0] != bit])
  }

  function Serial(c: Register, bits: BitString): Register
    decreases bits
  {
    if bits == [] then c else Serial(Feed(c, bits[0]), bits[1..])
  }

  // ------------------------------------------------------ laws of exclusive-or

  lemma {:induction false} XorLaws(a: BitString, b: BitString, c: BitString)
    requires |a| == |b| == |c|
    ensures XorBits(XorBits(a, b), c) == XorBits(a, XorBits(b, c))
    ensures XorBits(a, b) == XorBits(b, a)
    ensures XorBits(a, Zeros(|a|)) == a
    ensures XorBits(a, a) == Zeros(|a|)
  {}

  lemma {:induction false} XorCancels(a: BitString, b: BitString)
    requires |a| == |b|
    ensures IsZero(XorBits(a, b)) <==> a == b
  {
    if IsZero(XorBits(a, b)) {
      forall i | 0 <= i < |a| ensures a[i] == b[i] {
        assert !XorBits(a, b)[i];
      }
    }
  }

  // ----------------------------------------------- the step is linear and injective

  lemma {:induction false} StepXor(a: Register, b: Register)
    ensures Step(XorBits(a, b)) == XorBits(Step(a), Step(b))
  {}

  lemma {:induction false} StepZero(c: Register)
    ensures Step(c) == ZERO <==> c == ZERO
  {
    if Step(c) == ZERO {
      assert Step(c)[15] == c[0];
      forall i | 0 <= i < 16 ensures !c[i] {
        if i > 0 { assert Step(c)[i - 1] == c[i]; }
      }
    }
  }

  lemma {:induction false} StepsXor(a: Register, b: Register, n: nat)
    ensures Steps(XorBits(a, b), n) == XorBits(Steps(a, n), Steps(b, n))
    decreases n
  {
    if n > 0 {
      StepXor(a, b);
      StepsXor(Step(a), Step(b), n - 1);
    }
  }

  lemma {:induction false} StepsZero(c: Register, n: nat)
    ensures Steps(c, n) == ZERO <==> c == ZERO
    decreases n
  {
    if n > 0 {
      StepZero(c);
      StepsZero(Step(c), n - 1);
    }
  }

  // Hence any number of steps permutes the 65536 register values.
  lemma {:induction false} StepsInjective(a: Register, b: Register, n: nat)
    requires Steps(a, n) == Steps(b, n)
    ensures a == b
  {
    StepsXor(a, b, n);
    XorCancels(Steps(a, n), Steps(b, n));
    assert XorBits(Steps(a, n), Steps(b, n)) == ZERO;
    StepsZero(XorBits(a, b), n);
    XorCancels(a, b);
  }

  lemma {:induction false} StepsAdd(c: Register, m: nat, n: nat)
    ensures Steps(c, m + n) == Steps(Steps(c, m), n)
    decreases m
  {
    if m > 0 { StepsAdd(Step(c), m - 1, n); }
  }

  // ------------------------------------------------- bytes refine the bit register

  // Feeding the low bits of w one at a time is the same as adding w at once and
  // stepping; what is left of w has moved down meanwhile.
  lemma {:induction false} AbsorbWord(c: Register, w: Register, n: nat)
    requires n <= 16
    ensures Steps(XorBits(c, w), n) == XorBits(Serial(c, w[..n]), w[n..] + Zeros(n))
    decreases n
  {
    if n == 0 {
      assert w[0..] + Zeros(0) == w;
    } else {
      var rest := ShiftRight(w);
      assert Step(XorBits(c, w)) == XorBits(Feed(c, w[0]), rest);
      assert w[..n][1..] == rest[..n - 1];
      assert rest[n - 1..] + Zeros(n - 1) == w[n..] + Zeros(n);
      hide Step;
      hide XorBits;
      hide ShiftRight;
      AbsorbWord(Feed(c, w[0]), rest, n - 1);
    }
  }

  lemma {:induction false} SerialConcat(c: Register, x: BitString, y: BitString)
    ensures Serial(c, x + y) == Serial(Serial(c, x), y)
    decreases x
  {
    if x == [] {
      assert x + y == y;
    } else {
      assert (x + y)[1..] == x[1..] + y;
      SerialConcat(Feed(c, x[0]), x[1..], y);
    }
  }

  lemma {:induction false} UpdateIsSerial(c: Register, bytes: seq<Byte>)
    ensures Update(c, bytes) == Serial(c, Bits(bytes))
    decreases bytes
  {
    if bytes != [] {
      var byte := ToBits(bytes[0], 8);
      var w := byte + Zeros(8);
      AbsorbWord(c, w, |byte|);
      assert w[..8] == byte;
      assert XorBits(Serial(c, byte), w[8..] + Zeros(8)) == Serial(c, byte);
      SerialConcat(c, byte, Bits(bytes[1..]));
      UpdateIsSerial(Absorb(c, bytes[0]), bytes[1..]);
    }
  }

  lemma {:induction false} SerialXor(c: Register, d: Register, x: BitString, y: BitString)
    requires |x| == |y|
    ensures Serial(XorBits(c, d), XorBits(x, y)) == XorBits(Serial(c, x), Serial(d, y))
    decreases x
  {
    if x != [] {
      var c', d' := c[0 := c[0] != x[0]], d[0 := d[0] != y[0]];
      assert XorBits(c, d)[0 := XorBits(c, d)[0] != XorBits(x, y)[0]] == XorBits(c', d');
      StepXor(c', d');
      assert XorBits(x, y)[1..] == XorBits(x[1..], y[1..]);
      SerialXor(Feed(c, x[0]), Feed(d, y[0]), x[1..], y[1..]);
    }
  }

  // ------------------------------------------------------------ a word as two bytes

  // Low byte first.
  function WordBytes(w: Word): (bytes: seq<Byte>)
    ensures |bytes| == 2
  {
    [w % 256, w / 256]
  }

  function MakeWord(low: Byte, high: Byte): Word {
    (low as nat) + 256 * (high as nat)
  }

  lemma {:induction false} WordOfBytes(low: Byte, high: Byte)
    ensures WordBytes(MakeWord(low, high)) == [low, high]
  {
    SplitNumber(low, high);
  }

  lemma {:induction false} BytesOfWord(w: Word)
    ensures MakeWord(WordBytes(w)[0], WordBytes(w)[1]) == w
  {}

  lemma {:induction false} SplitNumber(low: nat, high: nat)
    requires low < 256
    ensures (low + 256 * high) % 256 == low && (low + 256 * high) / 256 == high
  {}

  lemma {:induction false} RegisterParts(r: Register)
    ensures WordBytes(RegisterWord(r)) == [FromBits(r[..8]), FromBits(r[8..])]
  {
    var low, high := r[..8], r[8..];
    assert r == low + high;
    FromBitsConcat(low, high);
    BitsRoundTrip(low);
    var p := Pow2(|low|);
    assert p == Pow2(8) == 256;
    SplitNumber(FromBits(low), FromBits(high));
  }

  lemma {:induction false} WordBytesBits(r: Register)
    ensures Bits(WordBytes(RegisterWord(r))) == r
  {
    RegisterParts(r);
    var bytes := WordBytes(RegisterWord(r));
    BitsRoundTrip(r[..8]);
    BitsRoundTrip(r[8..]);
    assert bytes[1..][1..] == [];
    assert Bits(bytes) == ToBits(bytes[0], 8) + (ToBits(bytes[1], 8) + []);
  }

  lemma {:induction false} FromBitsConcat(x: BitString, y: BitString)
    ensures FromBits(x + y) == FromBits(x) + Pow2(|x|) * FromBits(y)
  {
    if x == [] {
      assert x + y == y;
    } else {
      assert (x + y)[1..] == x[1..] + y;
      FromBitsConcat(x[1..], y);
      var p, v := Pow2(|x[1..]|), FromBits(y);
      MultiplyTwice(p, v);
      assert FromBits(x + y) == (if x[0] then 1 else 0) + 2 * (FromBits(x[1..]) + p * v);
    }
  }

  lemma {:induction false} MultiplyTwice(p: nat, v: nat)
    ensures 2 * (p * v) == (2 * p) * v
  {}
}
