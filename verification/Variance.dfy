/** The exact variance test over cycle means, in checked 128-bit arithmetic. */
module Variance {
  import opened Wrappers

  const I128_MAX := 0x7FFF_FFFF_FFFF_FFFF_FFFF_FFFF_FFFF_FFFF
  const U64_MAX := 0xFFFF_FFFF_FFFF_FFFF

  predicate InI128(x: int) {
    -I128_MAX - 1 <= x <= I128_MAX
  }

  function Checked(x: int): Option<int> {
    if InI128(x) then Some(x) else None
  }

  /** A cycle's gains: their sum and their number. */
  datatype Gain = Gain(sum: int, count: int)

  predicate Counted(values: seq<Gain>) {
    forall i :: 0 <= i < |values| ==> values[i].count > 0
  }

  // ---- the code's folds ----

  function CheckedProduct(xs: seq<int>): Option<int> {
    if xs == [] then Some(1)
    else
      var product := CheckedProduct(xs[..|xs| - 1]);
      if product.None? then None else Checked(product.value * xs[|xs| - 1])
  }

  function Counts(values: seq<Gain>): seq<int> {
    seq(|values|, i requires 0 <= i < |values| => values[i].count)
  }

  function CommonDenominator(values: seq<Gain>): Option<int> {
    CheckedProduct(Counts(values))
  }

  function ScaledSums(values: seq<Gain>, denominator: int): (r: Option<seq<int>>)
    requires Counted(values)
    ensures r.Some? ==> |r.value| == |values|
  {
    if values == [] then Some([])
    else
      var last := values[|values| - 1];
      var front := ScaledSums(values[..|values| - 1], denominator);
      var scaled := Checked(last.sum * (denominator / last.count));
      if front.None? || scaled.None? then None else Some(front.value + [scaled.value])
  }

  function CheckedSum(xs: seq<int>): Option<int> {
    if xs == [] then Some(0)
    else
      var total := CheckedSum(xs[..|xs| - 1]);
      if total.None? then None else Checked(total.value + xs[|xs| - 1])
  }

  function Delta(x: int, k: int, sum: int): Option<int> {
    var scaled := Checked(x * k);
    if scaled.None? then None else Checked(scaled.value - sum)
  }

  function Numerator(xs: seq<int>, k: int, sum: int): Option<int> {
    if xs == [] then Some(0)
    else
      var total := Numerator(xs[..|xs| - 1], k, sum);
      var delta := Delta(xs[|xs| - 1], k, sum);
      if total.None? || delta.None? then None
      else
        var square := Checked(delta.value * delta.value);
        if square.None? then None else Checked(total.value + square.value)
  }

  function Denominator(k: int, common: int): Option<int> {
    CheckedProduct([k, k, k - 1, common, common])
  }

  datatype Sample = Sample(display: nat, exceeds: bool)

  /** The variance for display, rounded up, and whether it exceeds the threshold. */
  function SampleVariance(values: seq<Gain>, threshold: nat): Result<Sample>
    requires Counted(values)
  {
    if |values| < 2 then Err(Invalid)
    else
      var common := CommonDenominator(values);
      if common.None? then Err(Invalid) else
      var scaled := ScaledSums(values, common.value);
      if scaled.None? then Err(Invalid) else
      var sum := CheckedSum(scaled.value);
      if sum.None? then Err(Invalid) else
      var numerator := Numerator(scaled.value, |values|, sum.value);
      if numerator.None? then Err(Invalid) else
      var denominator := Denominator(|values|, common.value);
      if denominator.None? || denominator.value == 0 then Err(Invalid) else
      var comparison := Checked(threshold * denominator.value);
      if comparison.None? || !InI128(numerator.value + (denominator.value - 1)) then Err(Invalid) else
      var display := (numerator.value + (denominator.value - 1)) / denominator.value;
      if !(0 <= display <= U64_MAX) then Err(Invalid)
      else Ok(Sample(display, numerator.value > comparison.value))
  }

  // ---- the exact variance ----

  function Mean(g: Gain): real
    requires g.count > 0
  {
    g.sum as real / g.count as real
  }

  function Means(values: seq<Gain>): (r: seq<real>)
    requires Counted(values)
    ensures |r| == |values| && forall i :: 0 <= i < |r| ==> r[i] == Mean(values[i])
  {
    seq(|values|, i requires 0 <= i < |values| => Mean(values[i]))
  }

  function Sum(xs: seq<real>): real {
    if xs == [] then 0.0 else Sum(xs[..|xs| - 1]) + xs[|xs| - 1]
  }

  function Times(a: real, b: real): real {
    a * b
  }

  function Square(x: real): real {
    Times(x, x)
  }

  function SquaredDistances(xs: seq<real>, center: real): real {
    if xs == [] then 0.0
    else SquaredDistances(xs[..|xs| - 1], center) + Square(xs[|xs| - 1] - center)
  }

  /** The unbiased sample variance. */
  function UnbiasedVariance(xs: seq<real>): real
    requires |xs| >= 2
  {
    SquaredDistances(xs, Sum(xs) / |xs| as real) / (|xs| - 1) as real
  }

  // ---- nonlinear steps, one at a time ----

  lemma MulAtLeast(c: int, e: int)
    requires c > 0 && e >= 1
    ensures c * e >= c
  {
  }

  lemma Unique(c: int, q: int, d: int, r: int)
    requires c > 0 && c * q == c * d + r && 0 <= r < c
    ensures q == d
  {
    assert c * (q - d) == c * q - c * d;
    assert c * (d - q) == c * d - c * q;
    if q > d {
      MulAtLeast(c, q - d);
    } else if q < d {
      MulAtLeast(c, d - q);
    }
  }

  lemma DivExact(c: int, q: int)
    requires c > 0
    ensures (c * q) / c == q
  {
    var p := c * q;
    Unique(c, q, p / c, p % c);
  }

  lemma CancelReal(a: real, b: real, q: real)
    requires b != 0.0 && q != 0.0
    ensures (a * q) / (b * q) == a / b
  {
    assert b * q != 0.0;
    var x := a / b;
    assert x * b == a;
    assert x * (b * q) == a * q;
  }

  lemma DivAdd(a: real, b: real, d: real)
    requires d != 0.0
    ensures a / d + b / d == (a + b) / d
  {
  }

  lemma DivDiv(a: real, b: real, c: real)
    requires b != 0.0 && c != 0.0
    ensures b * c != 0.0 && (a / b) / c == a / (b * c)
  {
    var x := (a / b) / c;
    assert x * c == a / b;
    assert (x * c) * b == a;
    assert x * (b * c) == a;
  }

  lemma Difference(s: real, sum: real, d: real, k: real)
    requires d > 0.0 && k > 0.0
    ensures d * k > 0.0 && s / d - (sum / d) / k == (s * k - sum) / (d * k)
  {
    DivDiv(sum, d, k);
    CancelReal(s, d, k);
    DivAdd(s * k, -sum, d * k);
    assert (-sum) / (d * k) == -(sum / (d * k));
  }

  lemma DivOfMul(a: real, b: real)
    requires b > 0.0
    ensures (a * b) / b == a
  {
  }

  lemma PositiveTimes(a: real, b: real)
    requires a > 0.0 && b > 0.0
    ensures Times(a, b) > 0.0
  {
  }

  lemma PositiveSquare(y: real)
    requires y > 0.0
    ensures Square(y) > 0.0
  {
    hide Times;
    PositiveTimes(y, y);
  }

  lemma SquareOfQuotient(x: real, y: real, q: real, z: real)
    requires q * y == x && z == Square(y) && z > 0.0
    ensures Square(q) == Square(x) / z
  {
    assert (q * q) * z == (q * y) * (q * y);
    DivOfMul(q * q, z);
  }

  lemma SquareQuotient(x: real, y: real)
    requires y > 0.0
    ensures Square(y) > 0.0 && Square(x / y) == Square(x) / Square(y)
  {
    hide Square;
    PositiveSquare(y);
    SquareOfQuotient(x, y, x / y, Square(y));
  }

  lemma CastMul(a: int, b: int)
    ensures (a * b) as real == a as real * b as real
  {
  }

  /** A sum over a count is the sum scaled to a common multiple of the count, over that multiple. */
  lemma ScaledQuotient(s: int, c: int, q: int)
    requires c > 0 && q > 0
    ensures c * q > 0 && s as real / c as real == (s * ((c * q) / c)) as real / (c * q) as real
  {
    MulPositive(c, q);
    DivExact(c, q);
    CastMul(s, q);
    CastMul(c, q);
    CancelReal(s as real, c as real, q as real);
  }

  // ---- the folds without overflow ----

  function Product(values: seq<Gain>): int {
    if values == [] then 1 else Product(values[..|values| - 1]) * values[|values| - 1].count
  }

  /** The product of all counts but one. */
  function Others(values: seq<Gain>, i: nat): int
    requires i < |values|
  {
    var n := |values| - 1;
    if i == n then Product(values[..n]) else Others(values[..n], i) * values[n].count
  }

  lemma {:induction false} ProductPositive(values: seq<Gain>)
    requires Counted(values)
    ensures Product(values) > 0
  {
    if values != [] {
      ProductPositive(values[..|values| - 1]);
      MulPositive(Product(values[..|values| - 1]), values[|values| - 1].count);
    }
  }

  lemma MulPositive(a: int, b: int)
    requires a > 0 && b > 0
    ensures a * b > 0
  {
  }

  lemma Associate(a: int, b: int, c: int)
    ensures (a * b) * c == a * (b * c)
  {
  }

  lemma {:induction false} ProductSplits(values: seq<Gain>, i: nat)
    requires i < |values| && Counted(values)
    ensures Product(values) == values[i].count * Others(values, i)
    decreases |values|
  {
    var n := |values| - 1;
    if i < n {
      ProductSplits(values[..n], i);
      Associate(values[i].count, Others(values[..n], i), values[n].count);
    } else {
      Commute(Product(values[..n]), values[n].count);
    }
  }

  lemma Commute(a: int, b: int)
    ensures a * b == b * a
  {
  }

  lemma ProductStep(xs: seq<int>, x: int)
    ensures CheckedProduct(xs + [x]) ==
            var product := CheckedProduct(xs); if product.None? then None else Checked(product.value * x)
  {
    assert (xs + [x])[..|xs|] == xs;
  }

  lemma CommonStep(values: seq<Gain>)
    requires values != []
    ensures CommonDenominator(values) ==
            var n := |values| - 1;
            var product := CommonDenominator(values[..n]);
            if product.None? then None else Checked(product.value * values[n].count)
  {
    hide CheckedProduct;
    var n := |values| - 1;
    assert Counts(values) == Counts(values[..n]) + [values[n].count];
    ProductStep(Counts(values[..n]), values[n].count);
  }

  lemma NoCounts()
    ensures CommonDenominator([]) == Some(1)
  {
  }

  /** The fixed chain of four checked multiplications. */
  lemma DenominatorStages(k: int, d: int)
    ensures Denominator(k, d).Some? <==>
            InI128(k) && InI128(k * k) && InI128((k * k) * (k - 1)) && InI128(((k * k) * (k - 1)) * d) && InI128((((k * k) * (k - 1)) * d) * d)
    ensures Denominator(k, d).Some? ==> Denominator(k, d).value == (((k * k) * (k - 1)) * d) * d
  {
    hide CheckedProduct;
    OneFactor(k);
    ProductStep([k], k);
    ProductStep([k, k], k - 1);
    ProductStep([k, k, k - 1], d);
    ProductStep([k, k, k - 1, d], d);
    assert [k] + [k] == [k, k];
    assert [k, k] + [k - 1] == [k, k, k - 1];
    assert [k, k, k - 1] + [d] == [k, k, k - 1, d];
    assert [k, k, k - 1, d] + [d] == [k, k, k - 1, d, d];
  }

  lemma OneFactor(k: int)
    ensures CheckedProduct([k]) == Checked(k)
  {
    assert [k][..0] == [];
  }

  lemma {:induction false} DenominatorIsProduct(values: seq<Gain>)
    requires CommonDenominator(values).Some?
    ensures CommonDenominator(values).value == Product(values)
  {
    hide CommonDenominator;
    NoCounts();
    if values != [] {
      CommonStep(values);
      DenominatorIsProduct(values[..|values| - 1]);
    }
  }

  lemma {:induction false} ScaledAt(values: seq<Gain>, d: int, i: nat)
    requires Counted(values) && ScaledSums(values, d).Some? && i < |values|
    ensures ScaledSums(values, d).value[i] == values[i].sum * (d / values[i].count)
    decreases |values|
  {
    if i < |values| - 1 {
      ScaledAt(values[..|values| - 1], d, i);
    }
  }

  lemma NotPositive(c: int, q: int)
    requires c > 0 && q <= 0
    ensures c * q <= 0
  {
  }

  lemma PositiveFactor(c: int, q: int)
    requires c > 0 && c * q > 0
    ensures q > 0
  {
    if q <= 0 {
      NotPositive(c, q);
    }
  }

  /** A scaled sum over the common denominator is the mean. */
  lemma ScaledIsMean(values: seq<Gain>, i: nat)
    requires Counted(values) && i < |values|
    ensures Product(values) > 0
    ensures Mean(values[i]) == (values[i].sum * (Product(values) / values[i].count)) as real / Product(values) as real
  {
    hide Product, Others;
    var c, q := values[i].count, Others(values, i);
    ProductPositive(values);
    ProductSplits(values, i);
    PositiveFactor(c, q);
    ScaledQuotient(values[i].sum, c, q);
  }

  // ---- the sums ----

  /** The reals are the integers over d. */
  predicate Over(ms: seq<real>, xs: seq<int>, d: int)
    requires d > 0
  {
    |ms| == |xs| && forall i :: 0 <= i < |ms| ==> ms[i] == xs[i] as real / d as real
  }

  lemma {:induction false} SumOver(ms: seq<real>, xs: seq<int>, d: int)
    requires d > 0 && Over(ms, xs, d) && CheckedSum(xs).Some?
    ensures Sum(ms) == CheckedSum(xs).value as real / d as real
  {
    if xs != [] {
      var n := |xs| - 1;
      SumOver(ms[..n], xs[..n], d);
      DivAdd(CheckedSum(xs[..n]).value as real, xs[n] as real, d as real);
    }
  }

  lemma RealDistance(x: real, d: real, k: real, sum: real)
    requires d > 0.0 && k > 0.0
    ensures d * k > 0.0 && Square(d * k) > 0.0
    ensures Square(x / d - (sum / d) / k) == Square(x * k - sum) / Square(d * k)
  {
    hide Square;
    Difference(x, sum, d, k);
    SquareQuotient(x * k - sum, d * k);
  }

  lemma DeltaIs(x: int, k: int, sum: int)
    requires Delta(x, k, sum).Some?
    ensures Delta(x, k, sum).value as real == x as real * k as real - sum as real
  {
    CastMul(x, k);
  }

  lemma DistanceOver(x: int, d: int, k: int, sum: int)
    requires d > 0 && k > 0 && Delta(x, k, sum).Some?
    ensures Square(d as real * k as real) > 0.0
    ensures var delta := Delta(x, k, sum).value;
            Square(x as real / d as real - (sum as real / d as real) / k as real) ==
            (delta * delta) as real / Square(d as real * k as real)
  {
    hide Square, Delta;
    RealDistance(x as real, d as real, k as real, sum as real);
    DeltaIs(x, k, sum);
    CastSquare(Delta(x, k, sum).value);
  }

  lemma CastSquare(a: int)
    ensures Square(a as real) == (a * a) as real
  {
  }

  lemma {:induction false} DistancesOver(ms: seq<real>, xs: seq<int>, d: int, k: int, sum: int)
    requires d > 0 && k > 0 && Over(ms, xs, d) && Numerator(xs, k, sum).Some?
    ensures Square(d as real * k as real) > 0.0
    ensures SquaredDistances(ms, (sum as real / d as real) / k as real) ==
            Numerator(xs, k, sum).value as real / Square(d as real * k as real)
  {
    hide Delta, Square;
    var y := d as real * k as real;
    ScaleSquare(d, k);
    if xs != [] {
      var n := |xs| - 1;
      DistancesOver(ms[..n], xs[..n], d, k, sum);
      DistanceOver(xs[n], d, k, sum);
      var delta := Delta(xs[n], k, sum).value;
      DivAdd(Numerator(xs[..n], k, sum).value as real, (delta * delta) as real, Square(y));
    }
  }

  lemma ScaleSquare(d: int, k: int)
    requires d > 0 && k > 0
    ensures d as real * k as real > 0.0 && Square(d as real * k as real) > 0.0
  {
    hide Square;
    MulPositive(d, k);
    CastMul(d, k);
    PositiveSquare(d as real * k as real);
  }

  lemma DenominatorIs(k: int, d: int)
    requires Denominator(k, d).Some? && k >= 2 && d > 0
    ensures Denominator(k, d).value > 0
    ensures Square(d as real * k as real) * (k - 1) as real == Denominator(k, d).value as real
  {
    hide Denominator;
    DenominatorStages(k, d);
    var a := k * k;
    var b := a * (k - 1);
    MulPositive(k, k);
    MulPositive(a, k - 1);
    MulPositive(b, d);
    MulPositive(b * d, d);
    CastMul(k, k);
    CastMul(a, k - 1);
    CastMul(b, d);
    CastMul(b * d, d);
    Rearrange(d as real, k as real, (k - 1) as real);
  }

  lemma Rearrange(d: real, k: real, j: real)
    ensures Square(d * k) * j == (((k * k) * j) * d) * d
  {
    assert (d * k) * (d * k) == (k * k) * (d * d);
    var a, b := k * k, d * d;
    assert (a * b) * j == (a * j) * b;
    assert (a * j) * (d * d) == ((a * j) * d) * d;
  }

  lemma MeansOver(values: seq<Gain>, xs: seq<int>)
    requires Counted(values) && ScaledSums(values, Product(values)) == Some(xs)
    ensures Product(values) > 0 && Over(Means(values), xs, Product(values))
  {
    hide Product, Mean;
    ProductPositive(values);
    forall i | 0 <= i < |values|
      ensures Means(values)[i] == xs[i] as real / Product(values) as real
    {
      ScaledIsMean(values, i);
      ScaledAt(values, Product(values), i);
    }
  }

  /** The quotient the code forms is the unbiased variance of the exact means. */
  lemma VarianceIsQuotient(values: seq<Gain>, xs: seq<int>, sum: int)
    requires |values| >= 2 && Counted(values) && ScaledSums(values, Product(values)) == Some(xs)
    requires CheckedSum(xs) == Some(sum) && Numerator(xs, |values|, sum).Some?
    requires Product(values) > 0 && Denominator(|values|, Product(values)).Some?
    ensures Denominator(|values|, Product(values)).value > 0
    ensures UnbiasedVariance(Means(values)) ==
            Numerator(xs, |values|, sum).value as real / Denominator(|values|, Product(values)).value as real
  {
    hide Product, Means, Numerator, Denominator, Sum, SquaredDistances, CheckedSum, ScaledSums, Over, Counted, Square;
    var k, d := |values|, Product(values);
    var ms := Means(values);
    MeansOver(values, xs);
    SumOver(ms, xs, d);
    DistancesOver(ms, xs, d, k, sum);
    DenominatorIs(k, d);
    ScaleSquare(d, k);
    DivDiv(Numerator(xs, k, sum).value as real, Square(d as real * k as real), (k - 1) as real);
  }

  lemma {:induction false} NumeratorSign(xs: seq<int>, k: int, sum: int)
    requires Numerator(xs, k, sum).Some?
    ensures Numerator(xs, k, sum).value >= 0
  {
    hide Delta;
    if xs != [] {
      NumeratorSign(xs[..|xs| - 1], k, sum);
      SquareSign(Delta(xs[|xs| - 1], k, sum).value);
    }
  }

  lemma SquareSign(x: int)
    ensures x * x >= 0
  {
  }

  lemma QuotientCompares(a: int, b: int, t: int)
    requires b > 0
    ensures a > t * b <==> a as real / b as real > t as real
  {
    var q := a as real / b as real;
    assert q * b as real == a as real;
    CastMul(t, b);
    if q > t as real {
      assert (q - t as real) * b as real > 0.0;
      assert (q - t as real) * b as real == q * b as real - t as real * b as real;
    } else {
      assert (t as real - q) * b as real >= 0.0;
      assert (t as real - q) * b as real == t as real * b as real - q * b as real;
    }
  }

  /** Rounded-up division. */
  lemma QuotientCeiling(a: int, b: int)
    requires a >= 0 && b > 0
    ensures var c := (a + (b - 1)) / b; c >= 0 && (c - 1) * b < a <= c * b
  {
    var c := (a + (b - 1)) / b;
    var r := (a + (b - 1)) % b;
    assert a + (b - 1) == b * c + r;
    assert (c - 1) * b == b * c - b;
  }

  /** Whenever the code answers, its flag is the exact comparison and its number the exact variance rounded up. */
  lemma VarianceMeaning(values: seq<Gain>, threshold: nat)
    requires Counted(values) && SampleVariance(values, threshold).Ok?
    ensures |values| >= 2
    ensures var v, s := UnbiasedVariance(Means(values)), SampleVariance(values, threshold).value;
            && (s.exceeds <==> v > threshold as real)
            && (s.display - 1) as real < v <= s.display as real
  {
    hide Product, Numerator, Denominator, CheckedSum, ScaledSums, CommonDenominator, UnbiasedVariance, Counted;
    DenominatorIsProduct(values);
    ProductPositive(values);
    var xs := ScaledSums(values, Product(values)).value;
    var sum := CheckedSum(xs).value;
    VarianceIsQuotient(values, xs, sum);
    var a, b := Numerator(xs, |values|, sum).value, Denominator(|values|, Product(values)).value;
    NumeratorSign(xs, |values|, sum);
    QuotientCompares(a, b, threshold);
    QuotientCeiling(a, b);
    var c := (a + (b - 1)) / b;
    QuotientCompares(a, b, c);
    QuotientCompares(a, b, c - 1);
  }

  // ---- no overflow in a window of three cycles ----

  const MAX_COUNT := 10_000
  const MAX_GAIN := 1_000_000

  /** What a valid cycle contributes. */
  predicate Sensible(g: Gain) {
    0 < g.count <= MAX_COUNT && -MAX_GAIN * g.count <= g.sum <= MAX_GAIN * g.count
  }

  predicate Window(values: seq<Gain>) {
    |values| == 3 && forall i :: 0 <= i < 3 ==> Sensible(values[i])
  }

  lemma MulMonotone(a: int, b: int, c: int, d: int)
    requires 0 <= a <= c && 0 <= b <= d
    ensures 0 <= a * b <= c * d
  {
    assert a * b <= c * b by {
      assert (c - a) * b >= 0;
    }
    assert c * b <= c * d by {
      assert c * (d - b) >= 0;
    }
  }

  function Cap(n: nat): nat {
    if n == 0 then 1 else MAX_COUNT * Cap(n - 1)
  }

  lemma {:induction false} DenominatorFits(values: seq<Gain>)
    requires |values| <= 3 && forall i :: 0 <= i < |values| ==> Sensible(values[i])
    ensures CommonDenominator(values).Some? && 0 < CommonDenominator(values).value <= Cap(|values|) <= 1_000_000_000_000
  {
    hide CommonDenominator;
    NoCounts();
    assert Cap(1) == 10_000 && Cap(2) == 100_000_000 && Cap(3) == 1_000_000_000_000;
    if values != [] {
      var n := |values| - 1;
      CommonStep(values);
      DenominatorFits(values[..n]);
      var p := CommonDenominator(values[..n]).value;
      MulMonotone(p, values[n].count, Cap(n), MAX_COUNT);
      MulPositive(p, values[n].count);
    }
  }

  lemma ScaledBound(s: int, c: int, q: int)
    requires c > 0 && q > 0 && -MAX_GAIN * c <= s <= MAX_GAIN * c
    ensures -(MAX_GAIN * (c * q)) <= s * q <= MAX_GAIN * (c * q)
  {
    assert (MAX_GAIN * c - s) * q >= 0;
    assert (MAX_GAIN * c + s) * q >= 0;
    Associate(MAX_GAIN, c, q);
  }

  lemma OneScaled(values: seq<Gain>, i: nat)
    requires Counted(values) && i < |values| && Sensible(values[i])
    ensures var x := values[i].sum * (Product(values) / values[i].count);
            -(MAX_GAIN * Product(values)) <= x <= MAX_GAIN * Product(values)
  {
    hide Product, Others, Counted;
    var c, q := values[i].count, Others(values, i);
    ProductPositive(values);
    ProductSplits(values, i);
    PositiveFactor(c, q);
    DivExact(c, q);
    ScaledBound(values[i].sum, c, q);
  }

  predicate Within(xs: seq<int>, bound: int) {
    forall i :: 0 <= i < |xs| ==> -bound <= xs[i] <= bound
  }

  lemma {:induction false} ScaledFits(values: seq<Gain>, d: int, bound: int)
    requires Counted(values) && 0 <= bound <= 1_000_000_000_000_000_000
    requires forall i :: 0 <= i < |values| ==> -bound <= values[i].sum * (d / values[i].count) <= bound
    ensures ScaledSums(values, d).Some? && Within(ScaledSums(values, d).value, bound)
  {
    if values != [] {
      ScaledFits(values[..|values| - 1], d, bound);
    }
  }

  lemma {:induction false} SumFits(xs: seq<int>, bound: int)
    requires |xs| <= 3 && 0 <= bound <= 1_000_000_000_000_000_000 && Within(xs, bound)
    ensures CheckedSum(xs).Some? && -(|xs| * bound) <= CheckedSum(xs).value <= |xs| * bound
  {
    if xs != [] {
      SumFits(xs[..|xs| - 1], bound);
    }
  }

  lemma DeltaFits(x: int, sum: int, bound: int)
    requires 0 <= bound <= 1_000_000_000_000_000_000
    requires -bound <= x <= bound && -(3 * bound) <= sum <= 3 * bound
    ensures Delta(x, 3, sum).Some?
    ensures var delta := Delta(x, 3, sum).value; 0 <= delta * delta <= (6 * bound) * (6 * bound)
  {
    var delta := x * 3 - sum;
    var size := if delta < 0 then -delta else delta;
    assert delta * delta == size * size;
    MulMonotone(size, size, 6 * bound, 6 * bound);
  }

  lemma {:induction false} NumeratorFits(xs: seq<int>, sum: int, bound: int)
    requires |xs| <= 3 && 0 <= bound <= 1_000_000_000_000_000_000 && Within(xs, bound)
    requires -(3 * bound) <= sum <= 3 * bound
    ensures Numerator(xs, 3, sum).Some?
    ensures 0 <= Numerator(xs, 3, sum).value <= |xs| * ((6 * bound) * (6 * bound))
  {
    hide Delta;
    var most := (6 * bound) * (6 * bound);
    MulMonotone(6 * bound, 6 * bound, 6_000_000_000_000_000_000, 6_000_000_000_000_000_000);
    if xs != [] {
      NumeratorFits(xs[..|xs| - 1], sum, bound);
      DeltaFits(xs[|xs| - 1], sum, bound);
    }
  }

  lemma DenominatorOfThree(d: int)
    requires 0 < d <= 1_000_000_000_000
    ensures Denominator(3, d).Some? && Denominator(3, d).value == 18 * (d * d) > 0
    ensures d * d <= 1_000_000_000_000_000_000_000_000
  {
    hide Denominator;
    DenominatorStages(3, d);
    MulMonotone(d, d, 1_000_000_000_000, 1_000_000_000_000);
    MulPositive(d, d);
    Associate(18, d, d);
  }

  lemma TimesMonotone(x: int, y: int, b: int)
    requires x >= y && b > 0
    ensures x * b >= y * b
  {
    assert (x - y) * b >= 0;
  }

  lemma CeilingFits(a: int, b: int, c: int, times: int)
    requires b > 0 && (c - 1) * b < a <= times * b
    ensures c <= times
  {
    if c > times {
      TimesMonotone(c - 1, times, b);
    }
  }

  lemma DisplayFits(a: int, b: int, times: int)
    requires b > 0 && 0 <= a <= times * b
    ensures 0 <= (a + (b - 1)) / b <= times
  {
    QuotientCeiling(a, b);
    CeilingFits(a, b, (a + (b - 1)) / b, times);
  }

  /** Three valid cycles and a threshold of at most ten to the ninth never overflow. */
  lemma WindowNeverOverflows(values: seq<Gain>, threshold: nat)
    requires Window(values) && threshold <= 1_000_000_000
    ensures SampleVariance(values, threshold).Ok?
  {
    hide Product, Numerator, Denominator, CheckedSum, ScaledSums, CommonDenominator;
    DenominatorFits(values);
    DenominatorIsProduct(values);
    var d := Product(values);
    var bound := MAX_GAIN * d;
    forall i | 0 <= i < |values|
      ensures -bound <= values[i].sum * (d / values[i].count) <= bound
    {
      OneScaled(values, i);
    }
    ScaledFits(values, d, bound);
    var xs := ScaledSums(values, d).value;
    SumFits(xs, bound);
    var sum := CheckedSum(xs).value;
    NumeratorFits(xs, sum, bound);
    DenominatorOfThree(d);
    SquareOfBound(d);
    DisplayFits(Numerator(xs, 3, sum).value, Denominator(3, d).value, 6_000_000_000_000);
    assert 0 <= threshold * Denominator(3, d).value <= 1_000_000_000 * Denominator(3, d).value by {
      MulMonotone(threshold, Denominator(3, d).value, 1_000_000_000, Denominator(3, d).value);
    }
  }

  lemma SquareOfBound(d: int)
    requires 0 < d <= 1_000_000_000_000
    ensures var bound := MAX_GAIN * d;
            3 * ((6 * bound) * (6 * bound)) == 6_000_000_000_000 * (18 * (d * d)) <= 108_000_000_000_000_000_000_000_000_000_000_000_000
  {
    MulMonotone(d, d, 1_000_000_000_000, 1_000_000_000_000);
    assert (6_000_000 * d) * (6_000_000 * d) == 36_000_000_000_000 * (d * d);
  }
}
