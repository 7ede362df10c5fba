/**
 The period of the check register. Left alone, a register holding a single bit
 returns to itself after 32767 steps and no sooner; two-bit errors are caught
 exactly up to that distance.

 The polynomial is (x + 1)(x^15 + x + 1). `Output` is the bit sequence of the
 second factor: it obeys s(k+15) = s(k+1) + s(k), and squaring that rule fifteen
 times gives s(k + 32768) = s(k + 1). So the period divides 32767 = 7 * 31 * 151,
 and evaluating the sequence rules out the three maximal proper divisors.
 */
module CrcPeriod {
  import opened Crc16

  // ------------------------------------------------------------ the bit sequence

  function OneAt(i: nat): (r: Register)
    requires i < 16
  {
    Zeros(16)[i := true]
  }

  // The register holding the number 1: what one message bit contributes.
  const UNIT: Register := OneAt(0)

  // x^0 and x^1 + x^0 in the order in which the register keeps coefficients.
  const GENERATOR: Register := OneAt(15)
  const FACTOR: Register := XorBits(OneAt(14), OneAt(15))

  function Output(k: nat): bool { Steps(FACTOR, k)[15] }

  lemma {:induction false} GeneratorSteps(k: nat)
    requires k < 16
    ensures Steps(GENERATOR, k) == OneAt(15 - k)
  {
    if k > 0 {
      GeneratorSteps(k - 1);
      StepsAdd(GENERATOR, k - 1, 1);
      assert Step(OneAt(16 - k)) == OneAt(15 - k);
    }
  }

  lemma {:induction false} FactorSteps(k: nat)
    ensures Steps(FACTOR, k) == XorBits(Steps(GENERATOR, k + 1), Steps(GENERATOR, k))
  {
    hide Steps;
    GeneratorSteps(1);
    StepsXor(Steps(GENERATOR, 1), GENERATOR, k);
    StepsAdd(GENERATOR, 1, k);
  }

  lemma {:induction false} FactorRecurrence()
    ensures Steps(FACTOR, 15) == XorBits(Steps(FACTOR, 1), FACTOR)
  {
    SixteenSteps();
    hide Steps;
    FactorSteps(15);
    FactorSteps(1);
    GeneratorSteps(1);
    GeneratorSteps(2);
    GeneratorSteps(15);
  }

  lemma {:induction false} OneStep(c: Register)
    ensures Steps(c, 1) == Step(c)
  {
    assert Steps(Step(c), 0) == Step(c);
  }

  lemma {:induction false} SixteenSteps()
    ensures Steps(GENERATOR, 16) == POLYNOMIAL
  {
    GeneratorSteps(15);
    StepsAdd(GENERATOR, 15, 1);
    var one := OneAt(0);
    OneStep(one);
    assert one[0] && ShiftRight(one) == ZERO;
    XorLaws(POLYNOMIAL, ZERO, ZERO);
  }

  lemma {:induction false} OutputRecurrence(j: nat)
    ensures Output(15 + j) == (Output(1 + j) != Output(j))
  {
    FactorRecurrence();
    StepsAdd(FACTOR, 15, j);
    StepsAdd(FACTOR, 1, j);
    StepsXor(Steps(FACTOR, 1), FACTOR, j);
  }

  // The sequence starts 1, fourteen zeros, 1, thirteen zeros, 1, 1, 0, ...
  lemma {:induction false} OutputStart(k: nat)
    requires k <= 33
    ensures Output(k) == (k == 0 || k == 15 || k == 29 || k == 30)
  {
    if k <= 14 {
      FactorSteps(k);
      GeneratorSteps(k);
      GeneratorSteps(k + 1);
    } else {
      OutputRecurrence(k - 15);
      OutputStart(k - 15);
      OutputStart(k - 14);
    }
  }

  // --------------------------------------------- linear rules and their squares

  function XorOver(ks: seq<nat>, j: nat): bool {
    if ks == [] then false else Output(ks[0] + j) != XorOver(ks[1..], j)
  }

  function Double(ks: seq<nat>): seq<nat> {
    if ks == [] then [] else [2 * ks[0]] + Double(ks[1..])
  }

  function SumOver(ks: seq<nat>, ms: seq<nat>, j: nat): bool {
    if ks == [] then false else XorOver(ms, ks[0] + j) != SumOver(ks[1..], ms, j)
  }

  // x^n is the sum of the x^k, as far as the sequence can tell.
  ghost predicate Rule(n: nat, ks: seq<nat>) {
    forall j: nat :: Output(n + j) == XorOver(ks, j)
  }

  lemma {:induction false} SumOverCons(ks: seq<nat>, m: nat, ms: seq<nat>, j: nat)
    ensures SumOver(ks, [m] + ms, j) == (XorOver(ks, m + j) != SumOver(ks, ms, j))
  {
    if ks != [] {
      assert ([m] + ms)[1..] == ms;
      assert Output(m + (ks[0] + j)) == Output(ks[0] + (m + j));
      SumOverCons(ks[1..], m, ms, j);
    }
  }

  // Cross terms cancel in pairs.
  lemma {:induction false} SquareOver(ks: seq<nat>, j: nat)
    ensures SumOver(ks, ks, j) == XorOver(Double(ks), j)
  {
    if ks != [] {
      var k, rest := ks[0], ks[1..];
      assert ks == [k] + rest;
      SumOverCons(rest, k, rest, j);
      SquareOver(rest, j);
      assert Double(ks)[1..] == Double(rest);
      assert Output(k + (k + j)) == Output(2 * k + j);
    }
  }

  lemma {:induction false} ApplyRule(n: nat, ks: seq<nat>, ms: seq<nat>, j: nat)
    requires Rule(n, ks)
    ensures XorOver(ms, n + j) == SumOver(ms, ks, j)
  {
    if ms != [] {
      assert Output(n + (ms[0] + j)) == Output(ms[0] + (n + j));
      ApplyRule(n, ks, ms[1..], j);
    }
  }

  lemma {:induction false} SquareRule(n: nat, ks: seq<nat>)
    requires Rule(n, ks)
    ensures Rule(2 * n, Double(ks))
  {
    forall j: nat ensures Output(2 * n + j) == XorOver(Double(ks), j) {
      assert Output(n + (n + j)) == XorOver(ks, n + j);
      ApplyRule(n, ks, ks, j);
      SquareOver(ks, j);
    }
  }

  // ------------------------------------------------------- the fifteen squarings

  // x^(2^k) reduced by x^15 = x + 1.
  function PowerRule(k: nat): (ks: seq<nat>)
    requires k <= 15
    ensures 0 < |ks| <= 4
  {
    if k == 0 then [1] else if k == 1 then [2] else if k == 2 then [4] else if k == 3 then [8]
    else if k == 4 then [2, 1] else if k == 5 then [4, 2] else if k == 6 then [8, 4]
    else if k == 7 then [8, 2, 1] else if k == 8 then [4, 1] else if k == 9 then [8, 2]
    else if k == 10 then [4, 2, 1] else if k == 11 then [8, 4, 2] else if k == 12 then [8, 4, 2, 1]
    else if k == 13 then [8, 4, 1] else if k == 14 then [8, 1] else [1]
  }

  function Terms(a: bool, b: bool, c: bool, d: bool): bool { a != (b != (c != d)) }

  lemma {:induction false} XorOverTerms(ks: seq<nat>, j: nat)
    requires |ks| <= 4
    ensures XorOver(ks, j) == Terms(
      |ks| > 0 && Output(ks[0] + j), |ks| > 1 && Output(ks[1] + j),
      |ks| > 2 && Output(ks[2] + j), |ks| > 3 && Output(ks[3] + j))
  {
    if ks != [] { XorOverTerms(ks[1..], j); }
  }

  lemma {:induction false} DoubleElements(ks: seq<nat>)
    ensures |Double(ks)| == |ks|
    ensures forall i :: 0 <= i < |ks| ==> Double(ks)[i] == 2 * ks[i]
  {
    if ks != [] { DoubleElements(ks[1..]); }
  }

  lemma {:induction false} ReduceSquare(k: nat, j: nat)
    requires k < 15
    ensures XorOver(Double(PowerRule(k)), j) == XorOver(PowerRule(k + 1), j)
  {
    hide Output;
    hide XorOver;
    DoubleElements(PowerRule(k));
    XorOverTerms(Double(PowerRule(k)), j);
    XorOverTerms(PowerRule(k + 1), j);
    OutputRecurrence(1 + j);
  }

  lemma {:induction false} NoSquaring()
    ensures Rule(Pow2(0), PowerRule(0))
  {
    hide Output;
    forall j: nat ensures Output(1 + j) == XorOver([1], j) { XorOverTerms([1], j); }
  }

  lemma {:induction false} Squarings(k: nat)
    requires k <= 15
    ensures Rule(Pow2(k), PowerRule(k))
  {
    hide Output;
    hide XorOver;
    hide Double;
    hide PowerRule;
    if k == 0 {
      NoSquaring();
    } else {
      Squarings(k - 1);
      SquareRule(Pow2(k - 1), PowerRule(k - 1));
      forall j: nat ensures Output(Pow2(k) + j) == XorOver(PowerRule(k), j) {
        assert Output(2 * Pow2(k - 1) + j) == XorOver(Double(PowerRule(k - 1)), j);
        ReduceSquare(k - 1, j);
      }
    }
  }

  lemma {:induction false} PowerOutput(k: nat, n: nat, j: nat)
    requires k <= 15 && n == Pow2(k)
    ensures var ks := PowerRule(k); Output(n + j) == Terms(
      Output(ks[0] + j), |ks| > 1 && Output(ks[1] + j),
      |ks| > 2 && Output(ks[2] + j), |ks| > 3 && Output(ks[3] + j))
  {
    hide Output;
    hide XorOver;
    hide PowerRule;
    hide Pow2;
    Squarings(k);
    assert Output(Pow2(k) + j) == XorOver(PowerRule(k), j);
    XorOverTerms(PowerRule(k), j);
  }

  // The squarings the proof needs, spelled out.
  lemma {:induction false} Shortcuts(j: nat)
    ensures Output(32 + j) == (Output(4 + j) != Output(2 + j))
    ensures Output(64 + j) == (Output(8 + j) != Output(4 + j))
    ensures Output(256 + j) == (Output(4 + j) != Output(1 + j))
    ensures Output(512 + j) == (Output(8 + j) != Output(2 + j))
    ensures Output(1024 + j) == (Output(4 + j) != (Output(2 + j) != Output(1 + j)))
    ensures Output(4096 + j) == Terms(Output(8 + j), Output(4 + j), Output(2 + j), Output(1 + j))
    ensures Output(32768 + j) == Output(1 + j)
  {
    hide Output;
    hide Pow2;
    PowersOfTwo();
    PowerOutput(5, 32, j);
    PowerOutput(6, 64, j);
    PowerOutput(8, 256, j);
    PowerOutput(9, 512, j);
    PowerOutput(10, 1024, j);
    PowerOutput(12, 4096, j);
    PowerOutput(15, 32768, j);
  }

  lemma {:induction false} PowersOfTwo()
    ensures Pow2(5) == 32 && Pow2(6) == 64 && Pow2(8) == 256 && Pow2(9) == 512
    ensures Pow2(10) == 1024 && Pow2(12) == 4096 && Pow2(15) == 32768
  {
    assert Pow2(4) == 16;
    assert Pow2(5) == 2 * Pow2(4);
    assert Pow2(8) == 256;
    assert Pow2(10) == 1024;
    assert Pow2(12) == 4096;
    assert Pow2(15) == 8 * Pow2(12);
  }

  // ------------------------------------------------------------- ruling out divisors

  ghost predicate Repeats(n: nat) {
    forall j: nat :: Output(n + j) == Output(j)
  }

  lemma {:induction false} RepeatsMultiple(n: nat, k: nat)
    requires Repeats(n)
    ensures Repeats(k * n)
  {
    if k > 0 {
      RepeatsMultiple(n, k - 1);
      assert k * n == n + (k - 1) * n;
      forall j: nat ensures Output(k * n + j) == Output(j) {
        assert Output(n + ((k - 1) * n + j)) == Output((k - 1) * n + j);
      }
    }
  }

  lemma {:induction false} RepeatsDifference(m: nat, n: nat)
    requires Repeats(m) && Repeats(n) && n <= m
    ensures Repeats(m - n)
  {
    forall j: nat ensures Output(m - n + j) == Output(j) {
      assert Output(n + (m - n + j)) == Output(m - n + j);
      assert Output(m + j) == Output(j);
    }
  }

  lemma {:induction false} RepeatsFull()
    ensures Repeats(32767)
  {
    forall j: nat ensures Output(32767 + j) == Output(j) {
      if j == 0 {
        OutputRecurrence(0);
        OutputRecurrence(32767);
        Shortcuts(0);
        Shortcuts(14);
      } else {
        Shortcuts(j - 1);
      }
    }
  }

  lemma {:induction false} NotRepeats1057()
    ensures !Repeats(1057)
  {
    hide Output;
    Shortcuts(33);
    Shortcuts(5);
    Shortcuts(3);
    Shortcuts(2);
    OutputStart(9); OutputStart(7); OutputStart(6); OutputStart(5); OutputStart(4); OutputStart(0);
    assert Output(1057 + 0) != Output(0);
  }

  lemma {:induction false} NotRepeats217()
    ensures !Repeats(217)
  {
    hide Output;
    Shortcuts(4);
    Shortcuts(11);
    OutputStart(8); OutputStart(5); OutputStart(15); OutputStart(13);
    assert Output(217 + 43) != Output(43);
  }

  lemma {:induction false} Jump576(j: nat)
    ensures Output(576 + j) == Terms(Output(16 + j), Output(12 + j), Output(10 + j), Output(6 + j))
  {
    Shortcuts(64 + j);
    Shortcuts(8 + j);
    Shortcuts(2 + j);
  }

  lemma {:induction false} NotRepeats4681()
    ensures !Repeats(4681)
  {
    hide Output;
    Shortcuts(585);
    Jump576(17);
    Jump576(13);
    Jump576(11);
    Jump576(10);
    OutputStart(33); OutputStart(25); OutputStart(23); OutputStart(19); OutputStart(21);
    OutputStart(17); OutputStart(26); OutputStart(22); OutputStart(20); OutputStart(16); OutputStart(0);
    assert Output(4681 + 0) != Output(0);
  }

  lemma {:induction false} Remainder(cofactor: nat, d: nat, p: nat)
    requires p > 0
    ensures (d / p) * (cofactor * p) <= cofactor * d
    ensures cofactor * d - (d / p) * (cofactor * p) == cofactor * (d % p)
  {
    var q, r := d / p, d % p;
    assert d == q * p + r;
    assert cofactor * (q * p + r) == cofactor * (q * p) + cofactor * r;
    assert cofactor * (q * p) == q * (cofactor * p);
    assert cofactor * r >= 0;
  }

  // cofactor * a and cofactor * b are repeat distances; so is cofactor * (a % b).
  lemma {:induction false} RepeatsRemainder(cofactor: nat, a: nat, b: nat)
    requires b > 0 && Repeats(cofactor * a) && Repeats(cofactor * b)
    ensures Repeats(cofactor * (a % b))
  {
    RepeatsMultiple(cofactor * b, a / b);
    Remainder(cofactor, a, b);
    RepeatsDifference(cofactor * a, (a / b) * (cofactor * b));
  }

  ghost predicate Prime(p: nat) {
    p > 1 && forall t :: 1 < t < p ==> p % t != 0
  }

  // Euclid's descent: if a prime p and a smaller s both count copies of a cofactor
  // in a repeat distance, so does 1.
  lemma {:induction false} Descend(cofactor: nat, p: nat, s: nat)
    requires Prime(p) && 0 < s < p
    requires Repeats(cofactor * p) && Repeats(cofactor * s)
    ensures Repeats(cofactor)
    decreases s
  {
    if s == 1 {
      assert cofactor * 1 == cofactor;
    } else {
      RepeatsRemainder(cofactor, p, s);
      Descend(cofactor, p, p % s);
    }
  }

  // A repeat distance is a multiple of each prime whose cofactor is not one.
  lemma {:induction false} DividesDistance(d: nat, cofactor: nat, p: nat)
    requires Prime(p) && Repeats(d) && Repeats(cofactor * p) && !Repeats(cofactor)
    ensures d % p == 0
  {
    if d % p != 0 {
      RepeatsMultiple(d, cofactor);
      RepeatsRemainder(cofactor, d, p);
      Descend(cofactor, p, d % p);
    }
  }

  lemma {:induction false} ProductOfLarge(t: nat, u: nat)
    requires t > 12 && u > 12
    ensures t * u >= 169
  {
    assert t * u >= 13 * u;
  }

  lemma {:induction false} NotMultiple(t: nat, u: nat)
    requires 2 <= t <= 12
    ensures t * u != 151
  {
    if t == 2 {} else if t == 3 {} else if t == 4 {} else if t == 5 {} else if t == 6 {} else if t == 7 {}
    else if t == 8 {} else if t == 9 {} else if t == 10 {} else if t == 11 {} else {}
  }

  lemma {:induction false} NotDivisible(t: nat)
    requires 1 < t < 151
    ensures 151 % t != 0
  {
    var u, r := 151 / t, 151 % t;
    assert t * u + r == 151;
    if t <= 12 {
      NotMultiple(t, u);
    } else {
      assert u <= 12 by { if u > 12 { ProductOfLarge(t, u); } }
      if u >= 2 { NotMultiple(u, t); }
    }
  }

  lemma {:induction false} Primes()
    ensures Prime(7) && Prime(31) && Prime(151)
  {
    forall t | 1 < t < 151 ensures 151 % t != 0 { NotDivisible(t); }
  }

  // The quotients by 7, 31 and 151 combine into the quotient by their product.
  lemma {:induction false} CommonMultiple(d: int, a: int, b: int, c: int)
    requires d == 7 * a == 31 * b == 151 * c
    ensures d == 32767 * (23 * (9 * b - 2 * a) - 16 * c)
  {
    var k := 9 * b - 2 * a;
    assert a == 31 * k;
    assert k == 151 * (23 * k - 16 * c);
  }

  lemma {:induction false} MultipleOfPeriod(d: int, m: int)
    requires d == 32767 * m
    ensures d % 32767 == 0
  {}

  lemma {:induction false} DivisibleByAll(d: nat)
    requires d % 7 == 0 && d % 31 == 0 && d % 151 == 0
    ensures d % 32767 == 0
  {
    CommonMultiple(d, d / 7, d / 31, d / 151);
    MultipleOfPeriod(d, 23 * (9 * (d / 31) - 2 * (d / 7)) - 16 * (d / 151));
  }

  lemma {:induction false} RepeatDistance(d: nat)
    requires Repeats(d)
    ensures d % 32767 == 0
  {
    RepeatsFull();
    Primes();
    NotRepeats4681();
    NotRepeats1057();
    NotRepeats217();
    DividesDistance(d, 4681, 7);
    DividesDistance(d, 1057, 31);
    DividesDistance(d, 217, 151);
    DivisibleByAll(d);
  }
}
