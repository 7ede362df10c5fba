/**
 Running statistics in one pass (Welford's method), over real numbers: the running
 mean and sum of squared deviations are exactly those of the whole sample.
 */
module RollingBaseline {
  datatype Baseline = Baseline(count: nat, mean: real, m2: real, minimum: real, maximum: real)

  const EMPTY := Baseline(0, 0.0, 0.0, 0.0, 0.0)

  function Added(b: Baseline, value: real): Baseline {
    var count := b.count + 1;
    var delta := value - b.mean;
    var mean := b.mean + delta / count as real;
    Baseline(
      count, mean, b.m2 + delta * (value - mean),
      if b.count == 0 || value < b.minimum then value else b.minimum,
      if b.count == 0 || value > b.maximum then value else b.maximum)
  }

  class RollingBaseline {
    var count: nat
    var mean: real
    var m2: real
    var minimum: real
    var maximum: real
    // All values added so far.
    ghost var sample: Sample

    ghost function Now(): Baseline
      reads this
    {
      Baseline(count, mean, m2, minimum, maximum)
    }

    ghost predicate Valid()
      reads this
    {
      Now() == After(sample)
    }

    constructor ()
      ensures Valid() && sample == []
    {
      count, mean, m2, minimum, maximum := 0, 0.0, 0.0, 0.0, 0.0;
      sample := [];
    }

    method Add(value: real)
      requires Valid()
      modifies this
      ensures Valid() && sample == old(sample) + [value]
    {
      ghost var before := Now();
      AfterOneMore(sample, value);
      hide After;
      if count == 0 {
        minimum, maximum := value, value;
      } else {
        if value < minimum { minimum := value; }
        if value > maximum { maximum := value; }
      }
      count := count + 1;
      var delta := value - mean;
      mean := mean + delta / count as real;
      var delta2 := value - mean;
      m2 := m2 + delta * delta2;
      assert delta2 == value - (before.mean + delta / count as real);
      assert Now() == Added(before, value);
      sample := sample + [value];
    }

    // The square of the reported standard deviation: the mean of the squared deviations
    // from the average, over one degree of freedom less.
    method Variance() returns (variance: real)
      requires Valid()
      ensures variance == VarianceOf(Now())
      ensures |sample| < 2 ==> variance == 0.0
      ensures |sample| >= 2 ==> Product(|sample| as real, mean) == Sum(sample)
      ensures |sample| >= 2 ==> Product((|sample| - 1) as real, variance) == Deviations(sample, mean)
      ensures variance >= 0.0
    {
      CountIsLength(sample);
      MeanIsAverage(sample);
      WelfordExact(sample);
      VarianceNonNegative(sample);
      hide After;
      if count < 2 { return 0.0; }
      Share(m2, (count - 1) as real);
      return m2 / (count - 1) as real;
    }
  }

  function VarianceOf(b: Baseline): real {
    if b.count < 2 then 0.0 else b.m2 / (b.count - 1) as real
  }

  // -------------------------------------------------------- the sample as a whole

  type Sample = seq<real>

  function After(xs: Sample): Baseline {
    if xs == [] then EMPTY else Added(After(xs[..|xs| - 1]), xs[|xs| - 1])
  }

  lemma {:induction false} AfterOneMore(xs: Sample, value: real)
    ensures After(xs + [value]) == Added(After(xs), value)
  {
    hide Added;
    assert (xs + [value])[..|xs|] == xs;
  }

  function Sum(xs: Sample): real {
    if xs == [] then 0.0 else Sum(xs[..|xs| - 1]) + xs[|xs| - 1]
  }

  function Square(x: real): real { x * x }

  // Sum of deviations from c, and sum of their squares.
  function Residual(xs: Sample, c: real): real {
    if xs == [] then 0.0 else Residual(xs[..|xs| - 1], c) + (xs[|xs| - 1] - c)
  }

  function Deviations(xs: Sample, c: real): real {
    if xs == [] then 0.0 else Deviations(xs[..|xs| - 1], c) + Square(xs[|xs| - 1] - c)
  }

  lemma {:induction false} DeviationsNonNegative(xs: Sample, c: real)
    ensures Deviations(xs, c) >= 0.0
  {
    if xs != [] {
      DeviationsNonNegative(xs[..|xs| - 1], c);
      SquareNonNegative(xs[|xs| - 1] - c);
    }
  }

  // ------------------------------------------------------------------ products

  // Named so that the proofs below can treat a product as a whole.
  function Product(x: real, y: real): real { x * y }

  lemma {:induction false} SquareNonNegative(e: real)
    ensures Square(e) >= 0.0
  {}

  lemma {:induction false} OneMore(n: real, x: real)
    ensures Product(n + 1.0, x) == Product(n, x) + x
    ensures Product(0.0, x) == 0.0
  {}

  lemma {:induction false} SquareExpand(w: real, k: real)
    ensures Square(w + k) == Square(w) + 2.0 * Product(k, w) + Square(k)
  {}

  lemma {:induction false} DistributeOver(k: real, x: real, y: real)
    ensures Product(k, x + y) == Product(k, x) + Product(k, y)
    ensures Product(k, 0.0) == 0.0
  {}

  lemma {:induction false} Negate(n: real, x: real)
    ensures Product(n, 0.0 - x) == 0.0 - Product(n, x)
    ensures Square(0.0 - x) == Square(x)
  {}

  lemma {:induction false} Share(w: real, n: real)
    requires n > 0.0
    ensures Product(n, w / n) == w
  {}

  lemma {:induction false} NonNegativeRatio(x: real, y: real)
    requires x >= 0.0 && y > 0.0
    ensures x / y >= 0.0
  {}

  lemma {:induction false} ScaledNonNegative(n: real, x: real)
    requires n >= 0.0 && x >= 0.0
    ensures Product(n, x) >= 0.0
  {}

  // The n old deviations move by e each and the new one is n * e: together they add
  // exactly the recurrence's product.
  lemma {:induction false} WelfordProduct(e: real, n: real)
    ensures Square(Product(n, e)) + Product(n, Square(e)) == Product(Product(n + 1.0, e), Product(n, e))
  {
    var p := n * e;
    assert n * (e * e) == p * e;
    assert (p + e) * p == p * p + e * p;
    assert (n + 1.0) * e == p + e;
  }

  // ------------------------------------------------------------- moving the centre

  lemma {:induction false} ResidualShift(xs: Sample, c: real, d: real)
    ensures Residual(xs, d) == Residual(xs, c) + Product(|xs| as real, c - d)
  {
    hide Product;
    OneMore((|xs| - 1) as real, c - d);
    if xs != [] { ResidualShift(xs[..|xs| - 1], c, d); }
  }

  lemma {:induction false} DeviationsShift(xs: Sample, c: real, d: real)
    ensures Deviations(xs, d)
      == Deviations(xs, c) + 2.0 * Product(c - d, Residual(xs, c)) + Product(|xs| as real, Square(c - d))
  {
    hide Product;
    hide Square;
    var k := c - d;
    OneMore((|xs| - 1) as real, Square(k));
    if xs == [] {
      DistributeOver(k, 0.0, 0.0);
    } else {
      var before, v := xs[..|xs| - 1], xs[|xs| - 1];
      DeviationsShift(before, c, d);
      SquareExpand(v - c, k);
      DistributeOver(k, Residual(before, c), v - c);
      assert v - d == (v - c) + k;
    }
  }

  lemma {:induction false} ResidualIsSum(xs: Sample, c: real)
    ensures Residual(xs, c) == Sum(xs) - Product(|xs| as real, c)
  {
    hide Product;
    OneMore((|xs| - 1) as real, c);
    if xs != [] { ResidualIsSum(xs[..|xs| - 1], c); }
  }

  // ------------------------------------------------------------------ the results

  lemma {:induction false} CountIsLength(xs: Sample)
    ensures After(xs).count == |xs|
  {
    if xs != [] { CountIsLength(xs[..|xs| - 1]); }
  }

  // One call, its division and its product named.
  lemma {:induction false} AddedStep(b: Baseline, v: real)
    ensures var after := Added(b, v);
      && Product((b.count + 1) as real, after.mean - b.mean) == v - b.mean
      && after.m2 == b.m2 + Product(v - b.mean, v - after.mean)
  {
    var n := (b.count + 1) as real;
    Share(v - b.mean, n);
    assert Added(b, v).mean - b.mean == (v - b.mean) / n;
  }

  // The running mean is the average: deviations from it cancel.
  lemma {:induction false} MeanIsAverage(xs: Sample)
    ensures Residual(xs, After(xs).mean) == 0.0
    ensures Product(|xs| as real, After(xs).mean) == Sum(xs)
  {
    hide Product;
    hide Added;
    if xs != [] {
      var before, v := xs[..|xs| - 1], xs[|xs| - 1];
      MeanIsAverage(before);
      CountIsLength(before);
      AddedStep(After(before), v);
      var c, d := After(before).mean, After(xs).mean;
      ResidualShift(xs, c, d);
      Negate(|xs| as real, d - c);
      assert c - d == 0.0 - (d - c);
    }
    ResidualIsSum(xs, After(xs).mean);
  }

  // The main result on the statistics: the accumulator is the sum of squared
  // deviations from the final mean, although that mean was not known on the way.
  lemma {:induction false} WelfordExact(xs: Sample)
    ensures After(xs).m2 == Deviations(xs, After(xs).mean)
  {
    hide Product;
    hide Added;
    hide Square;
    if xs != [] {
      var before, v := xs[..|xs| - 1], xs[|xs| - 1];
      WelfordExact(before);
      MeanIsAverage(before);
      CountIsLength(before);
      AddedStep(After(before), v);
      var c, d, n := After(before).mean, After(xs).mean, |before| as real;
      var e := d - c;
      DeviationsShift(before, c, d);
      DistributeOver(c - d, 0.0, 0.0);
      OneMore(n, e);
      WelfordProduct(e, n);
      Negate(n, e);
      assert c - d == 0.0 - e && v - c == Product(n + 1.0, e) && v - d == Product(n, e);
    }
  }

  lemma {:induction false} VarianceNonNegative(xs: Sample)
    ensures After(xs).m2 >= 0.0 && VarianceOf(After(xs)) >= 0.0
  {
    WelfordExact(xs);
    CountIsLength(xs);
    DeviationsNonNegative(xs, After(xs).mean);
    hide After;
    if |xs| >= 2 { NonNegativeRatio(After(xs).m2, (|xs| - 1) as real); }
  }

  // Least squares: no other centre is closer to the sample than its mean.
  lemma {:induction false} MeanMinimises(xs: Sample, c: real)
    ensures After(xs).m2 <= Deviations(xs, c)
  {
    hide Product;
    hide Square;
    WelfordExact(xs);
    MeanIsAverage(xs);
    var mean := After(xs).mean;
    hide After;
    DeviationsShift(xs, mean, c);
    DistributeOver(mean - c, 0.0, 0.0);
    SquareNonNegative(mean - c);
    ScaledNonNegative(|xs| as real, Square(mean - c));
  }

  // The recorded extremes are the extremes, and the mean lies between them.
  lemma {:induction false} Extremes(xs: Sample)
    requires xs != []
    ensures var b := After(xs);
      && (forall i :: 0 <= i < |xs| ==> b.minimum <= xs[i] <= b.maximum)
      && b.minimum in xs && b.maximum in xs
  {
    var before := xs[..|xs| - 1];
    CountIsLength(before);
    assert xs == before + [xs[|xs| - 1]];
    if before != [] { Extremes(before); }
  }

  lemma {:induction false} MeanBetweenExtremes(xs: Sample)
    requires xs != []
    ensures After(xs).minimum <= After(xs).mean <= After(xs).maximum
  {
    MeanIsAverage(xs);
    Extremes(xs);
    hide After;
    ResidualBetween(xs, After(xs).minimum, After(xs).mean, After(xs).maximum);
  }

  // If everything lies strictly on one side of c, the deviations from c do not cancel.
  lemma {:induction false} ResidualBetween(xs: Sample, low: real, c: real, high: real)
    requires xs != [] && forall i :: 0 <= i < |xs| ==> low <= xs[i] <= high
    ensures c < low ==> Residual(xs, c) > 0.0
    ensures c > high ==> Residual(xs, c) < 0.0
  {
    var before := xs[..|xs| - 1];
    assert forall i :: 0 <= i < |before| ==> before[i] == xs[i];
    if before != [] { ResidualBetween(before, low, c, high); }
  }
}
