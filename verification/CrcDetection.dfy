/**
 What the check word can and cannot miss. A byte string whose register ends at zero
 is a codeword: a message followed by its own check word. Two codewords of equal
 length never differ only within 16 consecutive bits, never in an odd number of
 bits, and never in two bits less than 32767 apart.
 */
module CrcDetection {
  import opened Crc16
  import opened CrcPeriod

  // ------------------------------------------------------------ counting set bits

  function Ones(bits: BitString): nat {
    if bits == [] then 0 else (if bits[0] then 1 else 0) + Ones(bits[1..])
  }

  function Odd(bits: BitString): bool {
    if bits == [] then false else bits[0] != Odd(bits[1..])
  }

  lemma {:induction false} OddOnes(bits: BitString)
    ensures Odd(bits) <==> Ones(bits) % 2 == 1
  {
    if bits != [] { OddOnes(bits[1..]); }
  }

  lemma {:induction false} OddXor(x: BitString, y: BitString)
    requires |x| == |y|
    ensures Odd(XorBits(x, y)) == (Odd(x) != Odd(y))
  {
    if x != [] {
      assert XorBits(x, y)[1..] == XorBits(x[1..], y[1..]);
      OddXor(x[1..], y[1..]);
    }
  }

  lemma {:induction false} OddConcat(x: BitString, y: BitString)
    ensures Odd(x + y) == (Odd(x) != Odd(y))
  {
    if x == [] {
      assert x + y == y;
    } else {
      assert (x + y)[1..] == x[1..] + y;
      OddConcat(x[1..], y);
    }
  }

  lemma {:induction false} OnesZero(bits: BitString)
    ensures Ones(bits) == 0 <==> IsZero(bits)
  {
    if bits != [] {
      OnesZero(bits[1..]);
      if IsZero(bits) {
        assert forall i :: 0 <= i < |bits| - 1 ==> bits[1..][i] == bits[i + 1];
      }
      if Ones(bits) == 0 {
        forall i | 0 <= i < |bits| ensures !bits[i] {
          if i > 0 { assert bits[i] == bits[1..][i - 1]; }
        }
      }
    }
  }

  // ---------------------------------------------------------------------- parity

  lemma {:induction false} OddPolynomial()
    ensures Odd(POLYNOMIAL)
  {
    var top: BitString := [true, false, true];
    assert POLYNOMIAL == [true] + (Zeros(12) + top);
    OddConcat([true], Zeros(12) + top);
    OddConcat(Zeros(12), top);
    OnesZero(Zeros(12));
    OddOnes(Zeros(12));
    assert top[1..] == [false, true];
  }

  lemma {:induction false} OddStep(c: Register)
    ensures Odd(Step(c)) == Odd(c)
  {
    OddConcat(c[1..], [false]);
    OddPolynomial();
    OddXor(ShiftRight(c), POLYNOMIAL);
  }

  lemma {:induction false} OddSerial(c: Register, bits: BitString)
    ensures Odd(Serial(c, bits)) == (Odd(c) != Odd(bits))
    decreases bits
  {
    if bits != [] {
      var met := c[0 := c[0] != bits[0]];
      assert met[1..] == c[1..];
      OddStep(met);
      OddSerial(Feed(c, bits[0]), bits[1..]);
    }
  }

  lemma {:induction false} OddInitial()
    ensures !Odd(INITIAL)
  {
    var four: BitString := [true, true, true, true];
    assert INITIAL == (four + four) + (four + four);
    OddConcat(four + four, four + four);
  }

  // The parity of the check word is the parity of the message.
  lemma {:induction false} CrcParity(bytes: seq<Byte>)
    ensures Odd(Crc(bytes)) == Odd(Bits(bytes))
  {
    UpdateIsSerial(INITIAL, bytes);
    OddSerial(INITIAL, Bits(bytes));
    OddInitial();
  }

  // ------------------------------------------------------------------- codewords

  ghost predicate Codeword(bytes: seq<Byte>) {
    Update(INITIAL, bytes) == ZERO
  }

  lemma {:induction false} BitsConcat(x: seq<Byte>, y: seq<Byte>)
    ensures Bits(x + y) == Bits(x) + Bits(y)
  {
    if x == [] {
      assert x + y == y;
    } else {
      assert (x + y)[1..] == x[1..] + y;
      BitsConcat(x[1..], y);
    }
  }

  // Appending 16 bits leaves zero exactly when they are the register itself.
  lemma {:induction false} SerialOwnWord(c: Register, w: Register)
    ensures Serial(c, w) == ZERO <==> c == w
  {
    var n := |w|;
    AbsorbWord(c, w, n);
    assert w[..n] == w;
    assert XorBits(Serial(c, w), w[n..] + Zeros(n)) == Serial(c, w);
    StepsZero(XorBits(c, w), n);
    XorCancels(c, w);
    if c == w { assert XorBits(c, w) == ZERO; }
  }

  // A body followed by the two bytes of a check word is a codeword exactly when the
  // check word is the body's.
  lemma {:induction false} CodewordIff(body: seq<Byte>, check: seq<Byte>, w: Register)
    requires Bits(check) == w
    ensures Codeword(body + check) <==> Crc(body) == w
  {
    UpdateIsSerial(INITIAL, body + check);
    BitsConcat(body, check);
    SerialConcat(INITIAL, Bits(body), w);
    UpdateIsSerial(INITIAL, body);
    SerialOwnWord(Crc(body), w);
  }

  // ----------------------------------------------------------------------- errors

  function Difference(x: seq<Byte>, y: seq<Byte>): (e: BitString)
    requires |x| == |y|
    ensures |e| == 8 * |x|
  {
    XorBits(Bits(x), Bits(y))
  }

  ghost predicate Within(e: BitString, from: int, width: nat) {
    forall i :: 0 <= i < |e| && e[i] ==> from <= i < from + width
  }

  lemma {:induction false} SerialZeros(c: Register, bits: BitString)
    requires IsZero(bits)
    ensures Serial(c, bits) == Steps(c, |bits|)
    decreases bits
  {
    if bits != [] {
      assert c[0 := c[0] != bits[0]] == c;
      SerialZeros(Feed(c, bits[0]), bits[1..]);
    }
  }

  lemma {:induction false} LeadingZero(e: BitString)
    requires e != [] && !e[0]
    ensures Serial(ZERO, e) == Serial(ZERO, e[1..])
    ensures !IsZero(e) ==> !IsZero(e[1..])
    ensures Ones(e) == Ones(e[1..])
  {
    StepZero(ZERO);
    assert ZERO[0 := ZERO[0] != e[0]] == ZERO;
    if !IsZero(e) {
      var i :| 0 <= i < |e| && e[i];
      assert e[1..][i - 1];
    }
  }

  lemma {:induction false} ShortBurst(b: BitString)
    requires 0 < |b| <= 16 && !IsZero(b)
    ensures Serial(ZERO, b) != ZERO
  {
    var n := |b|;
    var w: Register := b + Zeros(16 - n);
    AbsorbWord(ZERO, w, n);
    assert w[..n] == b;
    assert XorBits(ZERO, w) == w;
    assert XorBits(Serial(ZERO, b), w[n..] + Zeros(n)) == Serial(ZERO, b);
    StepsZero(w, n);
    var i :| 0 <= i < n && b[i];
    assert w[i];
  }

  lemma {:induction false} BurstLeavesTrace(e: BitString, from: int)
    requires !IsZero(e) && Within(e, from, 16)
    ensures Serial(ZERO, e) != ZERO
    decreases e
  {
    if !e[0] {
      LeadingZero(e);
      forall i | 0 <= i < |e[1..]| && e[1..][i] ensures from - 1 <= i < from - 1 + 16 {
        assert e[i + 1];
      }
      BurstLeavesTrace(e[1..], from - 1);
    } else {
      var n := if |e| < 16 then |e| else 16;
      assert e == e[..n] + e[n..];
      assert e[..n][0];
      SerialConcat(ZERO, e[..n], e[n..]);
      ShortBurst(e[..n]);
      assert IsZero(e[n..]);
      SerialZeros(Serial(ZERO, e[..n]), e[n..]);
      StepsZero(Serial(ZERO, e[..n]), |e| - n);
    }
  }

  lemma {:induction false} OddLeavesTrace(e: BitString)
    requires Ones(e) % 2 == 1
    ensures Serial(ZERO, e) != ZERO
  {
    OddSerial(ZERO, e);
    OddOnes(e);
    OnesZero(ZERO);
    OddOnes(ZERO);
  }

  // ---------------------------------------------------------------- two-bit errors

  const PERIOD: nat := 32767

  lemma {:induction false} UnitReturns(d: nat)
    requires Steps(UNIT, d) == UNIT
    ensures d % 32767 == 0
  {
    GeneratorSteps(15);
    StepsAdd(GENERATOR, 15, d);
    StepsAdd(GENERATOR, d, 15);
    StepsInjective(Steps(GENERATOR, d), GENERATOR, 15);
    FactorSteps(d);
    FactorSteps(0);
    StepsAdd(GENERATOR, d, 1);
    assert Steps(FACTOR, d) == FACTOR;
    forall j: nat ensures Output(d + j) == Output(j) {
      StepsAdd(FACTOR, d, j);
    }
    RepeatDistance(d);
  }

  lemma {:induction false} Observable(v: Register, i: nat)
    requires forall j: nat :: j <= 16 ==> !Steps(v, j)[15]
    requires i < 16
    ensures forall k :: 0 <= k < 16 - i ==> Steps(v, i)[k] == v[i + k]
    ensures !v[i]
  {
    if i > 0 {
      Observable(v, i - 1);
      StepsAdd(v, i - 1, 1);
      assert Steps(v, i) == Step(Steps(v, i - 1));
    }
    StepsAdd(v, i, 1);
    assert Steps(v, i + 1) == Step(Steps(v, i));
    assert Steps(v, i + 1)[15] == Steps(v, i)[0];
  }

  lemma {:induction false} FactorReturns()
    ensures Steps(FACTOR, 32767) == FACTOR
  {
    var n := PERIOD;
    var v := XorBits(Steps(FACTOR, n), FACTOR);
    RepeatsFull();
    forall j: nat ensures !Steps(v, j)[15] {
      StepsXor(Steps(FACTOR, n), FACTOR, j);
      StepsAdd(FACTOR, n, j);
      assert Output(n + j) == Output(j);
    }
    forall i | 0 <= i < 16 ensures !v[i] { Observable(v, i); }
    XorCancels(Steps(FACTOR, n), FACTOR);
  }

  lemma {:induction false} OddSteps(c: Register, n: nat)
    ensures Odd(Steps(c, n)) == Odd(c)
    decreases n
  {
    if n > 0 {
      OddStep(c);
      OddSteps(Step(c), n - 1);
    }
  }

  // The only register an idle step leaves alone and whose parity is even is zero.
  lemma {:induction false} FixedAndEven(w: Register)
    requires Step(w) == w && !Odd(w)
    ensures w == ZERO
  {
    var p := POLYNOMIAL;
    forall i | 0 <= i < 15 ensures w[i] == (w[i + 1] != (w[0] && p[i])) {
      assert Step(w)[i] == w[i];
    }
    assert Step(w)[15] == w[0];
    if w[0] {
      assert w[15] && w[14] && !w[13] && !w[12] && !w[11] && !w[10] && !w[9] && !w[8];
      assert !w[7] && !w[6] && !w[5] && !w[4] && !w[3] && !w[2] && !w[1];
      assert w == [true] + (Zeros(13) + [true, true]);
      OddConcat([true], Zeros(13) + [true, true]);
      OddConcat(Zeros(13), [true, true]);
      OnesZero(Zeros(13));
      OddOnes(Zeros(13));
      assert [true, true][1..] == [true];
    }
  }

  // A lone bit returns after exactly the multiples of 32767 steps.
  lemma {:induction false} UnitPeriod(d: nat)
    ensures Steps(UNIT, d) == UNIT <==> d % PERIOD == 0
  {
    if Steps(UNIT, d) == UNIT { UnitReturns(d); }
    if d % PERIOD == 0 { UnitReturnsOften(d / PERIOD); }
  }

  lemma {:induction false} XorSwap(a: BitString, b: BitString, c: BitString, d: BitString)
    requires |a| == |b| == |c| == |d| && XorBits(a, b) == XorBits(c, d)
    ensures XorBits(a, c) == XorBits(b, d)
  {
    forall i | 0 <= i < |a| ensures XorBits(a, c)[i] == XorBits(b, d)[i] {
      assert XorBits(a, b)[i] == XorBits(c, d)[i];
    }
  }

  lemma {:induction false} UnitReturnsOnce()
    ensures Steps(UNIT, PERIOD) == UNIT
  {
    var n := PERIOD;
    var w := XorBits(Steps(GENERATOR, n), GENERATOR);
    NoSteps(GENERATOR);
    NoSteps(FACTOR);
    OneStep(GENERATOR);
    OneStep(Steps(GENERATOR, n));
    hide Steps;
    hide Step;
    FactorReturns();
    FactorSteps(n);
    FactorSteps(0);
    StepsAdd(GENERATOR, n, 1);
    StepXor(Steps(GENERATOR, n), GENERATOR);
    XorSwap(Steps(GENERATOR, n + 1), Steps(GENERATOR, n), Steps(GENERATOR, 1), GENERATOR);
    assert Step(w) == w;
    OddSteps(GENERATOR, n);
    OddXor(Steps(GENERATOR, n), GENERATOR);
    FixedAndEven(w);
    XorCancels(Steps(GENERATOR, n), GENERATOR);
    GeneratorSteps(15);
    StepsAdd(GENERATOR, n, 15);
    StepsAdd(GENERATOR, 15, n);
  }

  lemma {:induction false} NoSteps(c: Register)
    ensures Steps(c, 0) == c
  {}

  lemma {:induction false} UnitReturnsOften(k: nat)
    ensures Steps(UNIT, k * PERIOD) == UNIT
  {
    NoSteps(UNIT);
    hide Steps;
    if k == 0 {
      assert k * PERIOD == 0;
    } else {
      UnitReturnsOnce();
      UnitReturnsOften(k - 1);
      StepsAdd(UNIT, PERIOD, (k - 1) * PERIOD);
      assert k * PERIOD == PERIOD + (k - 1) * PERIOD;
    }
  }

  // Exactly which two-bit errors go unseen, in a string of any length.
  lemma {:induction false} PairTrace(before: nat, distance: nat, after: nat)
    requires distance > 0
    ensures Serial(ZERO, Zeros(before) + ([true] + (Zeros(distance - 1) + ([true] + Zeros(after))))) == ZERO
      <==> distance % PERIOD == 0
  {
    var tail := [true] + Zeros(after);
    var middle := Zeros(distance - 1) + tail;
    SerialConcat(ZERO, Zeros(before), [true] + middle);
    SerialZeros(ZERO, Zeros(before));
    StepsZero(ZERO, before);
    assert ZERO[0 := true] == UNIT;
    assert ([true] + middle)[1..] == middle;
    SerialConcat(Step(UNIT), Zeros(distance - 1), tail);
    SerialZeros(Step(UNIT), Zeros(distance - 1));
    var c := Steps(UNIT, distance);
    assert c == Steps(Step(UNIT), distance - 1);
    assert tail[1..] == Zeros(after);
    SerialZeros(Feed(c, true), Zeros(after));
    StepsZero(Feed(c, true), after);
    var met := c[0 := c[0] != true];
    StepZero(met);
    assert met == ZERO <==> c == UNIT by {
      assert met == XorBits(c, UNIT);
      XorCancels(c, UNIT);
    }
    UnitPeriod(distance);
  }

  // The register after one set bit and k - 1 clear ones, meeting a second set bit.
  lemma {:induction false} SecondBit(k: nat, e: BitString)
    requires 0 < k && k + |e| <= 32767
    requires Ones(e) == 1
    ensures Serial(Steps(UNIT, k), e) != ZERO
    decreases e
  {
    var c := Steps(UNIT, k);
    StepsAdd(UNIT, k, 1);
    if !e[0] {
      assert c[0 := c[0] != e[0]] == c;
      assert Steps(UNIT, k + 1) == Step(c);
      SecondBit(k + 1, e[1..]);
    } else {
      OnesZero(e[1..]);
      SerialZeros(Feed(c, true), e[1..]);
      StepsZero(Feed(c, true), |e| - 1);
      var met := c[0 := c[0] != true];
      StepZero(met);
      if met == ZERO {
        assert c == UNIT by {
          assert forall i :: 0 <= i < 16 ==> c[i] == (if i == 0 then !met[0] else met[i]);
        }
        UnitReturns(k);
      }
    }
  }

  lemma {:induction false} PairLeavesTrace(e: BitString)
    requires Ones(e) == 2 && |e| <= 32767
    ensures Serial(ZERO, e) != ZERO
    decreases e
  {
    if !e[0] {
      LeadingZero(e);
      PairLeavesTrace(e[1..]);
    } else {
      assert ZERO[0 := ZERO[0] != e[0]] == UNIT;
      assert Steps(UNIT, 1) == Step(UNIT);
      SecondBit(1, e[1..]);
    }
  }

  // --------------------------------------------------------------- the code distance

  ghost predicate Detectable(e: BitString) {
    || (exists from: int :: Within(e, from, 16))
    || Ones(e) % 2 == 1
    || (Ones(e) <= 3 && |e| <= 32767)
  }

  lemma {:induction false} DetectableLeavesTrace(e: BitString)
    requires !IsZero(e) && Detectable(e)
    ensures Serial(ZERO, e) != ZERO
  {
    OnesZero(e);
    if from: int :| Within(e, from, 16) {
      BurstLeavesTrace(e, from);
    } else if Ones(e) % 2 == 1 {
      OddLeavesTrace(e);
    } else {
      PairLeavesTrace(e);
    }
  }

  lemma {:induction false} BitsInjective(x: seq<Byte>, y: seq<Byte>)
    requires |x| == |y| && Bits(x) == Bits(y)
    ensures x == y
  {
    if x != [] {
      assert Pow2(8) == 256;
      NumberRoundTrip(x[0], 8);
      NumberRoundTrip(y[0], 8);
      assert ToBits(x[0], 8) == Bits(x)[..8] == ToBits(y[0], 8);
      assert Bits(x[1..]) == Bits(x)[8..] == Bits(y[1..]);
      BitsInjective(x[1..], y[1..]);
    }
  }

  // The main result on the check word: messages of equal length whose difference is
  // detectable have different check words.
  lemma {:induction false} ChecksumsDiffer(x: seq<Byte>, y: seq<Byte>)
    requires |x| == |y| && x != y && Detectable(Difference(x, y))
    ensures Crc(x) != Crc(y) && Checksum(x) != Checksum(y)
  {
    var e := Difference(x, y);
    UpdateIsSerial(INITIAL, x);
    UpdateIsSerial(INITIAL, y);
    SerialXor(INITIAL, INITIAL, Bits(x), Bits(y));
    assert XorBits(INITIAL, INITIAL) == ZERO;
    if IsZero(e) {
      XorCancels(Bits(x), Bits(y));
      BitsInjective(x, y);
    } else {
      DetectableLeavesTrace(e);
      XorCancels(Crc(x), Crc(y));
      BitsRoundTrip(Crc(x));
      BitsRoundTrip(Crc(y));
    }
  }

  // -------------------------------------------------------------------- leading zeros

  // The top bit of a register that started from x^0.
  function Generated(k: nat): bool { Steps(GENERATOR, k)[15] }

  // The sum of n consecutive bits of the sequence.
  function OutputRange(n: nat, j: nat): bool {
    if n == 0 then false else OutputRange(n - 1, j) != Output(n - 1 + j)
  }

  lemma {:induction false} Telescope(n: nat, j: nat)
    ensures Generated(n + j) == (Generated(j) != OutputRange(n, j))
  {
    hide Steps;
    if n > 0 {
      Telescope(n - 1, j);
      FactorSteps(n - 1 + j);
    }
  }

  lemma {:induction false} RangeOfThirteen(j: nat)
    ensures OutputRange(13, j) ==
      (OutputRange(6, j) != (Output(6 + j) != (Output(7 + j) != (Output(8 + j) !=
        (Output(9 + j) != (Output(10 + j) != (Output(11 + j) != Output(12 + j))))))))
    ensures OutputRange(6, j) ==
      (Output(j) != (Output(1 + j) != (Output(2 + j) != (Output(3 + j) != (Output(4 + j) != Output(5 + j))))))
  {
    hide Output;
    assert OutputRange(0, j) == false;
    RangeStep(0, j); RangeStep(1, j); RangeStep(2, j); RangeStep(3, j); RangeStep(4, j); RangeStep(5, j);
    RangeStep(6, j); RangeStep(7, j); RangeStep(8, j); RangeStep(9, j); RangeStep(10, j); RangeStep(11, j);
    RangeStep(12, j);
    hide OutputRange;
  }

  lemma {:induction false} RangeStep(n: nat, j: nat)
    ensures OutputRange(n + 1, j) == (OutputRange(n, j) != Output(n + j))
  {
    hide Output;
  }

  lemma {:induction false} TwoToTheSeventh()
    ensures Pow2(7) == 128
  {}

  // 1 + x + ... + x^12 is x^223, as far as the sequence can tell.
  lemma {:induction false} RangeIsShift(j: nat)
    ensures OutputRange(13, j) == Output(223 + j)
  {
    hide Output;
    hide OutputRange;
    hide Pow2;
    RangeOfThirteen(j);
    TwoToTheSeventh();
    PowerOutput(7, 128, 95 + j);
    Shortcuts(39 + j);
    Shortcuts(33 + j);
    Shortcuts(32 + j);
    Shortcuts(15 + j);
    Shortcuts(11 + j);
    Shortcuts(9 + j);
    Shortcuts(5 + j);
    Shortcuts(8 + j);
    Shortcuts(4 + j);
    OutputRecurrence(4 + j);
    OutputRecurrence(2 + j);
    OutputRecurrence(j);
  }

  // How the start value drains: which bits are set after k steps.
  predicate SetAfter(k: nat, i: nat) {
    || k == 0
    || (i + k <= 13 && (i > 0 || k % 2 == 0))
    || i + k == 15
    || i == if k % 2 == 1 then 15 else 14
  }

  function InitialAfter(k: nat): (r: Register) { seq(16, i requires 0 <= i < 16 => SetAfter(k, i)) }

  lemma {:induction false} InitialSteps(k: nat)
    requires k <= 13
    ensures Steps(INITIAL, k) == InitialAfter(k)
  {
    NoSteps(INITIAL);
    if k > 0 {
      InitialSteps(k - 1);
      StepsAdd(INITIAL, k - 1, 1);
      OneStep(Steps(INITIAL, k - 1));
      InitialDrains(k - 1);
    }
    hide Steps;
  }

  lemma {:induction false} InitialDrains(k: nat)
    requires k < 13
    ensures Step(InitialAfter(k)) == InitialAfter(k + 1)
  {
    var c := InitialAfter(k);
    assert c[0] == (k % 2 == 0);
    forall i | 0 <= i < 16 ensures Step(c)[i] == InitialAfter(k + 1)[i] {
      assert POLYNOMIAL[i] == (i == 0 || i == 13 || i == 15);
      if i < 15 { assert ShiftRight(c)[i] == c[i + 1]; }
    }
  }

  // After 13 steps the start value is x^0 + x^13.
  lemma {:induction false} InitialShifted()
    ensures Steps(INITIAL, 13) == XorBits(GENERATOR, Steps(GENERATOR, 13))
  {
    GeneratorSteps(13);
    InitialSteps(13);
    hide Steps;
  }

  lemma {:induction false} InitialOutput(j: nat)
    ensures Steps(Steps(INITIAL, 13), j)[15] == Output(223 + j)
  {
    InitialShifted();
    StepsXor(GENERATOR, Steps(GENERATOR, 13), j);
    StepsAdd(GENERATOR, 13, j);
    Telescope(13, j);
    RangeIsShift(j);
    hide Steps;
    hide Output;
  }

  // So the start value returns after exactly the multiples of 32767 steps.
  lemma {:induction false} InitialPeriod(d: nat)
    ensures Steps(INITIAL, d) == INITIAL <==> d % PERIOD == 0
  {
    hide Steps;
    if Steps(INITIAL, d) == INITIAL { InitialReturns(d); }
    if d % PERIOD == 0 {
      InitialReturnsOften(d / PERIOD);
      assert d == d / PERIOD * PERIOD;
    }
  }

  lemma {:induction false} ReturnsShifted(c: Register, d: nat, n: nat)
    requires Steps(c, d) == c
    ensures Steps(Steps(c, n), d) == Steps(c, n)
  {
    StepsAdd(c, n, d);
    StepsAdd(c, d, n);
  }

  // A turn later the sequence is the same, so the offset does not matter.
  lemma {:induction false} OutputReturnsEarly(d: nat, j: nat)
    requires Steps(Steps(INITIAL, 13), d) == Steps(INITIAL, 13)
    ensures Output(d + j) == Output(j)
  {
    hide Steps;
    OutputReturns(d, 32544 + j);
    RepeatsFull();
    hide Output;
    assert Output(32767 + j) == Output(j) && Output(32767 + (d + j)) == Output(d + j);
  }

  lemma {:induction false} InitialReturns(d: nat)
    requires Steps(INITIAL, d) == INITIAL
    ensures d % 32767 == 0
  {
    ReturnsShifted(INITIAL, d, 13);
    hide Steps;
    hide Output;
    forall j: nat ensures Output(d + j) == Output(j) { OutputReturnsEarly(d, j); }
    RepeatDistance(d);
  }

  lemma {:induction false} OutputReturns(d: nat, j: nat)
    requires Steps(Steps(INITIAL, 13), d) == Steps(INITIAL, 13)
    ensures Output(223 + (d + j)) == Output(223 + j)
  {
    hide Steps;
    hide Output;
    InitialOutput(j);
    InitialOutput(d + j);
    StepsAdd(Steps(INITIAL, 13), d, j);
  }

  lemma {:induction false} InitialReturnsOnce()
    ensures Steps(INITIAL, PERIOD) == INITIAL
  {
    var n := PERIOD;
    UnitReturnsOnce();
    GeneratorSteps(15);
    StepsAdd(GENERATOR, 15, n);
    StepsAdd(GENERATOR, n, 15);
    StepsInjective(Steps(GENERATOR, n), GENERATOR, 15);
    StepsAdd(GENERATOR, 13, n);
    StepsAdd(GENERATOR, n, 13);
    InitialShifted();
    StepsXor(GENERATOR, Steps(GENERATOR, 13), n);
    StepsAdd(INITIAL, 13, n);
    StepsAdd(INITIAL, n, 13);
    StepsInjective(Steps(INITIAL, n), INITIAL, 13);
    hide Steps;
  }

  lemma {:induction false} InitialReturnsOften(k: nat)
    ensures Steps(INITIAL, k * PERIOD) == INITIAL
  {
    NoSteps(INITIAL);
    hide Steps;
    if k == 0 {
      assert k * PERIOD == 0;
    } else {
      InitialReturnsOnce();
      InitialReturnsOften(k - 1);
      StepsAdd(INITIAL, PERIOD, (k - 1) * PERIOD);
      assert k * PERIOD == PERIOD + (k - 1) * PERIOD;
    }
  }

  function ZeroBytes(n: nat): (bytes: seq<Byte>)
    ensures |bytes| == n && forall i :: 0 <= i < n ==> bytes[i] == 0
  {
    seq(n, i => 0)
  }

  lemma {:induction false} ZeroBytesBits(n: nat)
    ensures IsZero(Bits(ZeroBytes(n)))
  {
    if n > 0 {
      ZeroBytesBits(n - 1);
      assert ZeroBytes(n)[1..] == ZeroBytes(n - 1);
      ZeroBits(8);
    }
  }

  lemma {:induction false} ZeroBits(n: nat)
    ensures IsZero(ToBits(0, n))
  {
    if n > 0 {
      ZeroBits(n - 1);
      assert ToBits(0, n) == [false] + ToBits(0, n - 1);
    }
  }

  // The message apart, two registers that end alike were alike.
  lemma {:induction false} SerialInjective(c: Register, d: Register, bits: BitString)
    ensures Serial(c, bits) == Serial(d, bits) <==> c == d
  {
    var none := XorBits(bits, bits);
    SerialXor(c, d, bits, bits);
    SerialZeros(XorBits(c, d), none);
    StepsZero(XorBits(c, d), |bits|);
    XorCancels(c, d);
    XorCancels(Serial(c, bits), Serial(d, bits));
    hide Serial;
    hide Steps;
  }

  // Bytes of zero in front are noticed, whatever follows, unless a multiple of 32767 of
  // them is added.
  lemma {:induction false} LeadingZerosNoticed(n: nat, bytes: seq<Byte>)
    ensures Checksum(ZeroBytes(n) + bytes) == Checksum(bytes) <==> n % 32767 == 0
  {
    var zeros := ZeroBytes(n);
    UpdateIsSerial(INITIAL, zeros + bytes);
    UpdateIsSerial(INITIAL, bytes);
    BitsConcat(zeros, bytes);
    SerialConcat(INITIAL, Bits(zeros), Bits(bytes));
    ZeroBytesBits(n);
    SerialZeros(INITIAL, Bits(zeros));
    SerialInjective(Steps(INITIAL, 8 * n), INITIAL, Bits(bytes));
    InitialPeriod(8 * n);
    EightApart(n);
    BitsRoundTrip(Crc(zeros + bytes));
    BitsRoundTrip(Crc(bytes));
    hide Serial;
    hide Steps;
    hide Update;
  }

  lemma {:induction false} EightApart(n: nat)
    ensures (8 * n) % 32767 == 0 <==> n % 32767 == 0
  {
    var q, r := n / 32767, n % 32767;
    assert 8 * n == 32767 * (8 * q) + 8 * r;
    Remains(8 * q, 8 * r);
    var p := (8 * r) / 32767;
    if (8 * r) % 32767 == 0 {
      assert 8 * r == 32767 * p && p < 8;
      assert r == 0 || p == 1 || p == 2 || p == 3 || p == 4 || p == 5 || p == 6 || p == 7;
    }
  }

  lemma {:induction false} Remains(q: nat, r: nat)
    ensures (32767 * q + r) % 32767 == r % 32767
  {}
}
