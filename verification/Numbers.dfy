/**
 Arithmetic shared by the exam engine: rounding to a decimal grid, clamping, and
 weighted sums. Python floats are modelled by exact reals.
 */
module Numbers {

  // ----- rounding -----

  /** Python's `round` on an exact value: to the nearest integer, ties to the even one. */
  function RoundHalfEven(y: real): int {
    var f := y.Floor;
    var d := y - f as real;
    if d < 0.5 then f
    else if d > 0.5 then f + 1
    else if f % 2 == 0 then f else f + 1
  }

  /** `round(x, k)` where `scale` is ten to the power `k`. */
  function RoundTo(x: real, scale: int): (r: real)
    requires scale > 0
  {
    RoundHalfEven(x * scale as real) as real / scale as real
  }

  /** A value that rounding at `scale` leaves alone. */
  ghost predicate OnGrid(x: real, scale: int) {
    x * scale as real == (x * scale as real).Floor as real
  }

  lemma RoundHalfEvenMono(y: real, z: real)
    requires y <= z
    ensures RoundHalfEven(y) <= RoundHalfEven(z)
  {
    if y.Floor != z.Floor {
      assert y.Floor < z.Floor;
    }
  }

  lemma MulStrict(a: real, b: real, w: real)
    requires a < b && w > 0.0
    ensures a * w < b * w
  {
    assert (b - a) * w > 0.0;
  }

  lemma DivMono(a: real, b: real, s: real)
    requires s > 0.0 && a <= b
    ensures a / s <= b / s
  {
    var p, q := a / s, b / s;
    DivTimes(a, s);
    DivTimes(b, s);
    if q < p { MulStrict(q, p, s); }
  }

  lemma RoundMono(x: real, y: real, scale: int)
    requires scale > 0 && x <= y
    ensures RoundTo(x, scale) <= RoundTo(y, scale)
  {
    var p, q := x * scale as real, y * scale as real;
    assert p <= q by { MulMono(x, y, scale as real); }
    var a, b := RoundHalfEven(p), RoundHalfEven(q);
    assert a <= b by { RoundHalfEvenMono(p, q); }
    DivMono(a as real, b as real, scale as real);
    assert RoundTo(x, scale) == a as real / scale as real;
    assert RoundTo(y, scale) == b as real / scale as real;
  }

  lemma DivStrict(a: real, b: real, s: real)
    requires s > 0.0 && a < b
    ensures a / s < b / s
  {
    var p, q := a / s, b / s;
    DivTimes(a, s);
    DivTimes(b, s);
    if q <= p { MulMono(q, p, s); }
  }

  /** Values more than one grid step apart stay apart. */
  lemma RoundApart(x: real, y: real, scale: int)
    requires scale > 0 && y * scale as real - x * scale as real > 1.0
    ensures RoundTo(x, scale) < RoundTo(y, scale)
  {
    var a, b := RoundHalfEven(x * scale as real), RoundHalfEven(y * scale as real);
    RoundHalfEvenApart(x * scale as real, y * scale as real);
    DivStrict(a as real, b as real, scale as real);
    assert RoundTo(x, scale) == a as real / scale as real;
    assert RoundTo(y, scale) == b as real / scale as real;
  }

  lemma RoundHalfEvenApart(p: real, q: real)
    requires q - p > 1.0
    ensures RoundHalfEven(p) < RoundHalfEven(q)
  {
    assert RoundHalfEven(p) as real <= p + 0.5 && q - 0.5 <= RoundHalfEven(q) as real;
  }

  lemma RoundFixesGrid(x: real, scale: int)
    requires scale > 0 && OnGrid(x, scale)
    ensures RoundTo(x, scale) == x
  {
    assert RoundHalfEven(x * scale as real) as real == x * scale as real;
  }

  /** Rounding never leaves an interval whose ends lie on the grid. */
  lemma RoundBetween(lo: real, x: real, hi: real, scale: int)
    requires scale > 0 && lo <= x <= hi
    requires OnGrid(lo, scale) && OnGrid(hi, scale)
    ensures lo <= RoundTo(x, scale) <= hi
  {
    RoundMono(lo, x, scale);
    RoundMono(x, hi, scale);
    RoundFixesGrid(lo, scale);
    RoundFixesGrid(hi, scale);
  }

  lemma IntegersOnGrid(n: int, scale: int)
    requires scale > 0
    ensures OnGrid(n as real, scale)
  {
    assert n as real * scale as real == (n * scale) as real;
  }

  lemma DivTimes(a: real, s: real)
    requires s > 0.0
    ensures a / s * s == a
  {}

  lemma QuotientOnGrid(n: int, scale: int)
    requires scale > 0
    ensures OnGrid(n as real / scale as real, scale)
  {
    var q := n as real / scale as real;
    DivTimes(n as real, scale as real);
    assert q * scale as real == n as real;
    assert (n as real).Floor == n;
  }

  lemma RoundOnGrid(x: real, scale: int)
    requires scale > 0
    ensures OnGrid(RoundTo(x, scale), scale)
  {
    QuotientOnGrid(RoundHalfEven(x * scale as real), scale);
  }

  /** A grid point stays a grid point on a finer grid. */
  lemma GridRefines(x: real, scale: int, k: int)
    requires scale > 0 && k > 0 && OnGrid(x, scale)
    ensures OnGrid(x, scale * k)
  {
    var n := (x * scale as real).Floor;
    assert x * (scale * k) as real == x * (scale as real * k as real) == (x * scale as real) * k as real;
    assert (x * scale as real) * k as real == n as real * k as real == (n * k) as real;
    assert (x * (scale * k) as real).Floor == n * k;
  }

  lemma RoundUnit(x: real, scale: int)
    requires scale > 0 && 0.0 <= x <= 1.0
    ensures 0.0 <= RoundTo(x, scale) <= 1.0
  {
    IntegersOnGrid(0, scale);
    IntegersOnGrid(1, scale);
    RoundBetween(0.0, x, 1.0, scale);
  }

  // ----- clamping -----

  function MaxReal(a: real, b: real): real { if a >= b then a else b }

  function MinReal(a: real, b: real): real { if a <= b then a else b }

  function MaxInt(a: int, b: int): int { if a >= b then a else b }

  function MinInt(a: int, b: int): int { if a <= b then a else b }

  /** `clamp`: into the unit interval. */
  function Clamp(x: real): (r: real)
    ensures 0.0 <= r <= 1.0
    ensures 0.0 <= x <= 1.0 ==> r == x
  {
    MaxReal(0.0, MinReal(1.0, x))
  }

  // ----- weighted sums -----

  /** A value with its weight. */
  datatype Weighted = Weighted(value: real, weight: real)

  function TotalWeight(items: seq<Weighted>): real {
    if items == [] then 0.0 else items[0].weight + TotalWeight(items[1..])
  }

  function WeightedSum(items: seq<Weighted>): real {
    if items == [] then 0.0 else items[0].value * items[0].weight + WeightedSum(items[1..])
  }

  ghost predicate NonNegativeWeights(items: seq<Weighted>) {
    forall i :: 0 <= i < |items| ==> items[i].weight >= 0.0
  }

  ghost predicate ValuesWithin(items: seq<Weighted>, lo: real, hi: real) {
    forall i :: 0 <= i < |items| ==> lo <= items[i].value <= hi
  }

  lemma MulMono(a: real, b: real, w: real)
    requires a <= b && w >= 0.0
    ensures a * w <= b * w
  {
    assert (b - a) * w >= 0.0;
  }

  lemma {:induction false} TotalWeightNonNegative(items: seq<Weighted>)
    requires NonNegativeWeights(items)
    ensures TotalWeight(items) >= 0.0
    ensures forall i :: 0 <= i < |items| ==> items[i].weight <= TotalWeight(items)
  {
    if items != [] {
      assert NonNegativeWeights(items[1..]);
      TotalWeightNonNegative(items[1..]);
      forall i | 0 <= i < |items| ensures items[i].weight <= TotalWeight(items) {
        if i > 0 { assert items[i] == items[1..][i - 1]; }
      }
    }
  }

  lemma Distribute(c: real, a: real, b: real)
    ensures c * (a + b) == c * a + c * b
  {}

  /** A sum over this much weight that a mean between the bounds would give. */
  ghost predicate SumBetween(lo: real, hi: real, weight: real, sum: real) {
    lo * weight <= sum <= hi * weight
  }

  lemma BoundStep(lo: real, value: real, hi: real, weight: real, rest: real, sum: real)
    requires lo <= value <= hi && weight >= 0.0
    requires SumBetween(lo, hi, rest, sum)
    ensures SumBetween(lo, hi, weight + rest, value * weight + sum)
  {
    MulMono(lo, value, weight);
    MulMono(value, hi, weight);
    Distribute(lo, weight, rest);
    Distribute(hi, weight, rest);
  }

  lemma {:induction false} WeightedSumWithin(items: seq<Weighted>, lo: real, hi: real)
    requires NonNegativeWeights(items) && ValuesWithin(items, lo, hi)
    ensures SumBetween(lo, hi, TotalWeight(items), WeightedSum(items))
  {
    if items != [] {
      var rest := items[1..];
      WeightedSumWithin(rest, lo, hi);
      BoundStep(lo, items[0].value, hi, items[0].weight, TotalWeight(rest), WeightedSum(rest));
    }
  }

  lemma DivCancel(a: real, w: real)
    requires w != 0.0
    ensures a * w / w == a
  {}

  /** A weighted mean lies between bounds on its values. */
  lemma MeanWithin(items: seq<Weighted>, lo: real, hi: real)
    requires NonNegativeWeights(items) && ValuesWithin(items, lo, hi)
    requires TotalWeight(items) > 0.0
    ensures lo <= WeightedSum(items) / TotalWeight(items) <= hi
  {
    WeightedSumWithin(items, lo, hi);
    QuotientBetween(lo, hi, TotalWeight(items), WeightedSum(items));
  }

  lemma QuotientBetween(lo: real, hi: real, weight: real, sum: real)
    requires weight > 0.0 && SumBetween(lo, hi, weight, sum)
    ensures lo <= sum / weight <= hi
  {
    DivMono(lo * weight, sum, weight);
    DivMono(sum, hi * weight, weight);
    DivCancel(lo, weight);
    DivCancel(hi, weight);
  }

  /** Same weights, values nowhere larger. */
  ghost predicate Dominated(a: seq<Weighted>, b: seq<Weighted>) {
    |a| == |b|
    && forall i :: 0 <= i < |a| ==> a[i].weight == b[i].weight && a[i].value <= b[i].value
  }

  lemma {:induction false} WeightedSumMono(a: seq<Weighted>, b: seq<Weighted>)
    requires Dominated(a, b) && NonNegativeWeights(a)
    ensures TotalWeight(a) == TotalWeight(b)
    ensures WeightedSum(a) <= WeightedSum(b)
  {
    if a != [] {
      assert NonNegativeWeights(a[1..]);
      assert Dominated(a[1..], b[1..]);
      WeightedSumMono(a[1..], b[1..]);
      MulMono(a[0].value, b[0].value, a[0].weight);
    }
  }

  lemma MeanMono(a: seq<Weighted>, b: seq<Weighted>)
    requires Dominated(a, b) && NonNegativeWeights(a)
    requires TotalWeight(a) > 0.0
    ensures TotalWeight(b) == TotalWeight(a)
    ensures WeightedSum(a) / TotalWeight(a) <= WeightedSum(b) / TotalWeight(b)
  {
    WeightedSumMono(a, b);
    DivMono(WeightedSum(a), WeightedSum(b), TotalWeight(a));
  }

  // ----- plain means -----

  function Sum(values: seq<real>): real {
    if values == [] then 0.0 else values[0] + Sum(values[1..])
  }

  /** The arithmetic mean; zero for no values. */
  function Mean(values: seq<real>): real {
    if values == [] then 0.0 else Sum(values) / |values| as real
  }

  function UnitWeights(values: seq<real>): seq<Weighted> {
    seq(|values|, i requires 0 <= i < |values| => Weighted(values[i], 1.0))
  }

  lemma {:induction false} SumIsWeighted(values: seq<real>)
    ensures TotalWeight(UnitWeights(values)) == |values| as real
    ensures WeightedSum(UnitWeights(values)) == Sum(values)
  {
    if values != [] {
      SumIsWeighted(values[1..]);
      assert UnitWeights(values)[1..] == UnitWeights(values[1..]);
    }
  }

  /** The mean lies between bounds on the values. */
  lemma AverageWithin(values: seq<real>, lo: real, hi: real)
    requires values != [] && forall i :: 0 <= i < |values| ==> lo <= values[i] <= hi
    ensures lo <= Mean(values) <= hi
  {
    SumIsWeighted(values);
    MeanWithin(UnitWeights(values), lo, hi);
  }

  lemma AverageMono(a: seq<real>, b: seq<real>)
    requires |a| == |b| && forall i :: 0 <= i < |a| ==> a[i] <= b[i]
    ensures Mean(a) <= Mean(b)
  {
    if a != [] {
      SumIsWeighted(a);
      SumIsWeighted(b);
      MeanMono(UnitWeights(a), UnitWeights(b));
    }
  }
}
