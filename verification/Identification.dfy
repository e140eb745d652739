/** The accumulators and solvers of motor identification: field-oriented/src/commission/utils.rs. */
module Identification {
  import opened Modulation
  import opened Reals
  import opened Transforms
  import opened Wrappers

  datatype EstimationStepFault =
    | MissingParameter
    | Overflow
    | InsufficientSamples
    | DegenSolution
    | ParameterOutOfBounds
    | TargetCurrentUnreachable

  datatype Axis = D | Q
  {
    function Of(x: ClarkPark): real {
      if D? then x.d else x.q
    }

    function Vector(magnitude: real): ClarkPark {
      if D? then ClarkPark(magnitude, 0.0) else ClarkPark(0.0, magnitude)
    }
  }

  datatype Sample = Sample(x: real, y: real)

  // ---- Least squares ----

  /** Accumulator for `y = a x`. */
  datatype Lse = Lse(xySum: real, xxSum: real, numData: nat)
  {
    function Accumulate(x: real, y: real): Lse {
      Lse(xySum + Mul(x, y), xxSum + Square(x), numData + 1)
    }

    function Solve(minData: nat): Result<real, EstimationStepFault> {
      if numData < minData then Err(InsufficientSamples)
      else if xxSum > 0.000000000001 then Ok(xySum / xxSum)
      else Err(DegenSolution)
    }
  }

  const NO_DATA := Lse(0.0, 0.0, 0)

  function Accumulated(data: seq<Sample>): Lse {
    if data == [] then NO_DATA
    else
      var last := data[|data| - 1];
      Accumulated(data[..|data| - 1]).Accumulate(last.x, last.y)
  }

  /** The sum of squared residuals of the slope `a`. */
  function Residual(data: seq<Sample>, a: real): real {
    if data == [] then 0.0
    else
      var last := data[|data| - 1];
      Residual(data[..|data| - 1], a) + Square(last.y - Mul(a, last.x))
  }

  lemma SquareOfDifference(x: real, y: real, a: real)
    ensures Square(y - Mul(a, x)) == Square(y) - 2.0 * Mul(a, Mul(x, y)) + Mul(Square(a), Square(x))
  {
  }

  /** The residual is a parabola in the slope, with the accumulated sums for coefficients. */
  lemma {:induction false} ResidualIsParabola(data: seq<Sample>, a: real)
    ensures var sums := Accumulated(data);
            sums.xxSum >= 0.0 && sums.numData == |data|
    ensures Residual(data, a)
         == Residual(data, 0.0) - 2.0 * Mul(a, Accumulated(data).xySum) + Mul(Square(a), Accumulated(data).xxSum)
  {
    if data == [] {
      MulZero(a);
      MulZero(Square(a));
    } else {
      var before, last := data[..|data| - 1], data[|data| - 1];
      ResidualIsParabola(before, a);
      SquareOfDifference(last.x, last.y, a);
      MulZero(last.x);
      SquareSign(last.x);
      MulLinear(a, Accumulated(before).xySum, Mul(last.x, last.y));
      MulLinear(Square(a), Accumulated(before).xxSum, Square(last.x));
      hide Mul, Square;
    }
  }

  lemma VertexForm(a: real, b: real, xy: real, xx: real)
    requires Mul(a, xx) == xy
    ensures Mul(Square(b), xx) - 2.0 * Mul(b, xy) - (Mul(Square(a), xx) - 2.0 * Mul(a, xy)) == Mul(Square(b - a), xx)
  {
    assert Mul(Square(b - a), xx) == Mul(Square(b), xx) - 2.0 * Mul(b, Mul(a, xx)) + Mul(a, Mul(a, xx));
    assert Mul(Square(a), xx) == Mul(a, Mul(a, xx));
    hide Mul, Square;
  }

  /** The solution is the slope with the least sum of squared residuals, and the only one. */
  lemma SolveMinimises(data: seq<Sample>, minData: nat, other: real)
    requires Accumulated(data).Solve(minData).Ok?
    ensures var a := Accumulated(data).Solve(minData).value;
            Residual(data, a) <= Residual(data, other) && (Residual(data, a) == Residual(data, other) ==> a == other)
  {
    var sums := Accumulated(data);
    var a := sums.xySum / sums.xxSum;
    ResidualIsParabola(data, a);
    ResidualIsParabola(data, other);
    DivMul(sums.xySum, sums.xxSum);
    MulComm(a, sums.xxSum);
    VertexForm(a, other, sums.xySum, sums.xxSum);
    SquareSign(other - a);
    MulSign(Square(other - a), sums.xxSum);
    MulNonNegative(Square(other - a), sums.xxSum);
    hide Mul, Square, Residual, Accumulated;
  }

  /** A solution exists exactly when there is enough data and the inputs are not all negligible. */
  lemma SolvesIff(data: seq<Sample>, minData: nat)
    ensures Accumulated(data).Solve(minData).Ok? <==>
            |data| >= minData && Accumulated(data).xxSum > 0.000000000001
    ensures Accumulated(data).Solve(minData) == Err(InsufficientSamples) <==> |data| < minData
  {
    ResidualIsParabola(data, 0.0);
    hide Accumulated;
  }

  /** Data on a line through the origin give its slope. */
  lemma SolveRecoversSlope(data: seq<Sample>, minData: nat, a: real)
    requires Accumulated(data).Solve(minData).Ok?
    requires forall i :: 0 <= i < |data| ==> data[i].y == Mul(a, data[i].x)
    ensures Accumulated(data).Solve(minData).value == a
  {
    LineLeavesNothing(data, a);
    SolveMinimises(data, minData, a);
    ResidualNonNegative(data, Accumulated(data).Solve(minData).value);
    hide Residual, Accumulated;
  }

  lemma {:induction false} LineLeavesNothing(data: seq<Sample>, a: real)
    requires forall i :: 0 <= i < |data| ==> data[i].y == Mul(a, data[i].x)
    ensures Residual(data, a) == 0.0
  {
    if data != [] {
      LineLeavesNothing(data[..|data| - 1], a);
      SquareSign(0.0);
      hide Mul, Square;
    }
  }

  lemma {:induction false} ResidualNonNegative(data: seq<Sample>, a: real)
    ensures Residual(data, a) >= 0.0
  {
    if data != [] {
      ResidualNonNegative(data[..|data| - 1], a);
      var last := data[|data| - 1];
      SquareSign(last.y - Mul(a, last.x));
      hide Mul, Square;
    }
  }

  // ---- The inductance test ----

  /** One sample of the inductance test: the voltage magnitude, the current slope and the current, both signed by the
      applied voltage. */
  datatype Excitation = Excitation(v: real, slope: real, current: real)

  function Samples(test: seq<Excitation>): seq<Sample> {
    seq(|test|, i requires 0 <= i < |test| => Sample(test[i].v, test[i].slope))
  }

  /** What the resistance leaves in the sums. */
  function Imbalance(test: seq<Excitation>): real {
    if test == [] then 0.0
    else
      var last := test[|test| - 1];
      Imbalance(test[..|test| - 1]) + Mul(last.v, last.current)
  }

  lemma OneExcitation(inductance: real, r: real, e: Excitation)
    requires Mul(inductance, e.slope) == e.v - Mul(r, e.current)
    ensures Mul(inductance, Mul(e.v, e.slope)) == Square(e.v) - Mul(r, Mul(e.v, e.current))
  {
    MulSwap(inductance, e.v, e.slope);
    MulSwap(r, e.v, e.current);
    MulLinear(e.v, e.v, Mul(r, e.current));
    assert Square(e.v) == Mul(e.v, e.v);
    hide Mul, Square;
  }

  lemma {:induction false} SumsOfExcitation(inductance: real, r: real, test: seq<Excitation>)
    requires forall k :: 0 <= k < |test| ==> Mul(inductance, test[k].slope) == test[k].v - Mul(r, test[k].current)
    ensures var sums := Accumulated(Samples(test));
            Mul(inductance, sums.xySum) == sums.xxSum - Mul(r, Imbalance(test))
  {
    if test == [] {
      MulZero(inductance);
      MulZero(r);
    } else {
      var before, last := test[..|test| - 1], test[|test| - 1];
      SumsOfExcitation(inductance, r, before);
      assert Samples(test)[..|test| - 1] == Samples(before);
      OneExcitation(inductance, r, last);
      MulLinear(inductance, Accumulated(Samples(before)).xySum, Mul(last.v, last.slope));
      MulLinear(r, Imbalance(before), Mul(last.v, last.current));
      hide Mul, Square, Samples;
    }
  }

  /** The slope solved from a winding with inductance `inductance` and resistance `r` is the exact reciprocal of the
      inductance if and only if the resistance term cancels over the samples. */
  lemma {:induction false} ReciprocalIsExactIff(inductance: real, r: real, test: seq<Excitation>, minData: nat)
    requires forall k :: 0 <= k < |test| ==> Mul(inductance, test[k].slope) == test[k].v - Mul(r, test[k].current)
    requires Accumulated(Samples(test)).Solve(minData).Ok?
    ensures Mul(inductance, Accumulated(Samples(test)).Solve(minData).value) == 1.0 <==> Mul(r, Imbalance(test)) == 0.0
  {
    var sums := Accumulated(Samples(test));
    var a := sums.xySum / sums.xxSum;
    SumsOfExcitation(inductance, r, test);
    DivMul(sums.xySum, sums.xxSum);
    MulSwap(inductance, sums.xxSum, a);
    MulOne(sums.xxSum);
    CancelFactor(Mul(inductance, a), 1.0, sums.xxSum);
    hide Mul, Accumulated, Samples, Imbalance;
  }

  lemma {:induction false} ImbalanceAdds(first: seq<Excitation>, rest: seq<Excitation>)
    ensures Imbalance(first + rest) == Imbalance(first) + Imbalance(rest)
  {
    if rest == [] {
      assert first + rest == first;
    } else {
      var before := rest[..|rest| - 1];
      ImbalanceAdds(first, before);
      assert (first + rest)[..|first + rest| - 1] == first + before;
    }
    hide Mul;
  }

  lemma EndsCancel(first: Excitation, inner: seq<Excitation>, last: Excitation)
    requires first.v == last.v && first.current == -last.current
    ensures Imbalance([first] + inner + [last]) == Imbalance(inner)
  {
    ImbalanceAdds([first], inner);
    MulLinear(first.v, last.current, 0.0);
    assert ([first] + inner + [last])[..|inner| + 1] == [first] + inner;
    hide Mul;
  }

  /** Sample `k` has the voltage and the opposite current of the sample as far from the other end. */
  predicate Mirrored(test: seq<Excitation>, k: nat)
    requires k < |test|
  {
    var other := test[|test| - 1 - k];
    test[k].v == other.v && test[k].current == -other.current
  }

  /** A test whose currents run back through the opposite values, as a triangle through the same peaks does, cancels
      the resistance. */
  lemma {:induction false} SymmetricTestCancels(test: seq<Excitation>)
    requires forall k :: 0 <= k < |test| ==> Mirrored(test, k)
    ensures Imbalance(test) == 0.0
    decreases |test|
  {
    hide Mul;
    if test != [] {
      assert Mirrored(test, 0);
    }
    if |test| == 1 {
      MulZero(test[0].v);
    } else if test != [] {
      var n := |test| - 1;
      var inner := test[1..n];
      forall k | 0 <= k < |inner|
        ensures Mirrored(inner, k)
      {
        assert Mirrored(test, k + 1);
      }
      SymmetricTestCancels(inner);
      EndsCancel(test[0], inner, test[n]);
      assert test == [test[0]] + inner + [test[n]];
    }
  }

  // ---- Means ----

  datatype Mean = Mean(xSum: real, ySum: real, numData: nat)
  {
    function Accumulate(x: real, y: real): Mean {
      Mean(xSum + x, ySum + y, numData + 1)
    }

    function X(): real {
      Quotient(xSum, numData as real)
    }

    function Y(): real {
      Quotient(ySum, numData as real)
    }

    /** All the data lie on the line `y = slope x + offset`, as far as the sums show. */
    predicate OnLine(slope: real, offset: real) {
      ySum == Mul(slope, xSum) + Mul(offset, numData as real)
    }
  }

  const NO_SAMPLES := Mean(0.0, 0.0, 0)

  lemma EmptyOnLine(slope: real, offset: real)
    ensures NO_SAMPLES.OnLine(slope, offset)
  {
  }

  lemma AccumulateOnLine(m: Mean, x: real, y: real, slope: real, offset: real)
    requires m.OnLine(slope, offset) && y == Mul(slope, x) + offset
    ensures m.Accumulate(x, y).OnLine(slope, offset)
  {
    MulLinear(slope, m.xSum, x);
    MulLinear(offset, m.numData as real, 1.0);
    MulOne(offset);
    hide Mul;
  }

  /** The mean of data on a line is on the line. */
  lemma MeanOnLine(m: Mean, slope: real, offset: real)
    requires m.OnLine(slope, offset) && m.numData > 0
    ensures m.Y() == Mul(slope, m.X()) + offset
  {
    var n := m.numData as real;
    DivMul(m.xSum, n);
    DivMul(m.ySum, n);
    Distribute(slope, m.X(), offset, n);
    CancelFactor(m.Y(), Mul(slope, m.X()) + offset, n);
    hide Mul;
  }

  lemma Distribute(slope: real, x: real, offset: real, n: real)
    ensures Mul(n, Mul(slope, x) + offset) == Mul(slope, Mul(n, x)) + Mul(offset, n)
  {
  }

  lemma CancelFactor(x: real, y: real, n: real)
    requires n != 0.0
    ensures Mul(n, x) == Mul(n, y) ==> x == y
  {
    MulLinear(n, x, y);
    if Mul(n, x) == Mul(n, y) {
      MulComm(n, x - y);
      ZeroProduct(x - y, n);
    }
    hide Mul;
  }

  // ---- The flux ----

  /** The turning inductance matrix times the current. */
  function CurrentFlux(lAvg: real, lDiff: real, cos: real, sin: real, i: ClarkPark): ClarkPark {
    var cos2, sin2 := Square(cos) - Square(sin), 2.0 * Mul(sin, cos);
    ClarkPark(Mul(lAvg, i.d) + Mul(lDiff, Mul(cos2, i.d) + Mul(sin2, i.q)),
              Mul(lAvg, i.q) + Mul(lDiff, Mul(sin2, i.d) - Mul(cos2, i.q)))
  }

  /** The flux of the current is linear in the current. */
  lemma CurrentFluxAdds(lAvg: real, lDiff: real, c: real, s: real, i: ClarkPark, j: ClarkPark)
    ensures var a, b := CurrentFlux(lAvg, lDiff, c, s, i), CurrentFlux(lAvg, lDiff, c, s, j);
            CurrentFlux(lAvg, lDiff, c, s, ClarkPark(i.d + j.d, i.q + j.q)) == ClarkPark(a.d + b.d, a.q + b.q)
  {
    var cos2, sin2 := Square(c) - Square(s), 2.0 * Mul(s, c);
    hide Mul, Square;
    MulLinear(lAvg, i.d, j.d);
    MulLinear(lAvg, i.q, j.q);
    MulLinear(cos2, i.d, j.d);
    MulLinear(cos2, i.q, j.q);
    MulLinear(sin2, i.d, j.d);
    MulLinear(sin2, i.q, j.q);
    MulLinear(lDiff, Mul(cos2, i.d) + Mul(sin2, i.q), Mul(cos2, j.d) + Mul(sin2, j.q));
    MulLinear(lDiff, Mul(sin2, i.d) - Mul(cos2, i.q), Mul(sin2, j.d) - Mul(cos2, j.q));
  }

  lemma CurrentFluxScales(lAvg: real, lDiff: real, c: real, s: real, n: real, i: ClarkPark)
    ensures var a := CurrentFlux(lAvg, lDiff, c, s, i);
            CurrentFlux(lAvg, lDiff, c, s, ClarkPark(Mul(n, i.d), Mul(n, i.q))) == ClarkPark(Mul(n, a.d), Mul(n, a.q))
  {
    var cos2, sin2 := Square(c) - Square(s), 2.0 * Mul(s, c);
    hide Mul, Square;
    MulSwap(lAvg, n, i.d);
    MulSwap(lAvg, n, i.q);
    MulSwap(cos2, n, i.d);
    MulSwap(cos2, n, i.q);
    MulSwap(sin2, n, i.d);
    MulSwap(sin2, n, i.q);
    var u, v := Mul(cos2, i.d) + Mul(sin2, i.q), Mul(sin2, i.d) - Mul(cos2, i.q);
    MulLinear(n, Mul(cos2, i.d), Mul(sin2, i.q));
    MulLinear(n, Mul(sin2, i.d), Mul(cos2, i.q));
    MulSwap(lDiff, n, u);
    MulSwap(lDiff, n, v);
    MulLinear(n, Mul(lAvg, i.d), Mul(lDiff, u));
    MulLinear(n, Mul(lAvg, i.q), Mul(lDiff, v));
  }

  /** The flux linkage of magnets of flux `flux` at the angle of `c` and `s`, and of the current `i`. */
  function Linkage(flux: real, lAvg: real, lDiff: real, c: real, s: real, i: ClarkPark): ClarkPark {
    var currentFlux := CurrentFlux(lAvg, lDiff, c, s, i);
    ClarkPark(Mul(flux, c) + currentFlux.d, Mul(flux, s) + currentFlux.q)
  }

  /** The sum of `n` linkages whose currents sum to `i`. */
  function LinkageSum(flux: real, lAvg: real, lDiff: real, c: real, s: real, n: real, i: ClarkPark): ClarkPark {
    var currentFlux := CurrentFlux(lAvg, lDiff, c, s, i);
    ClarkPark(Mul(n, Mul(flux, c)) + currentFlux.d, Mul(n, Mul(flux, s)) + currentFlux.q)
  }

  lemma LinkageSumAdds(flux: real, lAvg: real, lDiff: real, c: real, s: real, n: real, i: ClarkPark, j: ClarkPark)
    ensures var sum, one := LinkageSum(flux, lAvg, lDiff, c, s, n, i), Linkage(flux, lAvg, lDiff, c, s, j);
            LinkageSum(flux, lAvg, lDiff, c, s, n + 1.0, ClarkPark(i.d + j.d, i.q + j.q)) ==
              ClarkPark(sum.d + one.d, sum.q + one.q)
  {
    hide Mul, CurrentFlux;
    CurrentFluxAdds(lAvg, lDiff, c, s, i, j);
    OneMore(n, Mul(flux, c));
    OneMore(n, Mul(flux, s));
  }

  lemma OneMore(n: real, x: real)
    ensures Mul(n + 1.0, x) == Mul(n, x) + x
  {
  }

  /** The sum is the number of linkages times the linkage of the mean current. */
  lemma LinkageSumIsMean(flux: real, lAvg: real, lDiff: real, c: real, s: real, n: real, sum: ClarkPark)
    requires n != 0.0
    ensures var mean := Linkage(flux, lAvg, lDiff, c, s, ClarkPark(Quotient(sum.d, n), Quotient(sum.q, n)));
            LinkageSum(flux, lAvg, lDiff, c, s, n, sum) == ClarkPark(Mul(n, mean.d), Mul(n, mean.q))
  {
    hide Mul, CurrentFlux;
    var mean := ClarkPark(Quotient(sum.d, n), Quotient(sum.q, n));
    DivMul(sum.d, n);
    DivMul(sum.q, n);
    CurrentFluxScales(lAvg, lDiff, c, s, n, mean);
    var currentFlux := CurrentFlux(lAvg, lDiff, c, s, mean);
    MulLinear(n, Mul(flux, c), currentFlux.d);
    MulLinear(n, Mul(flux, s), currentFlux.q);
  }

  datatype PmFluxSolver = PmFluxSolver(
    lambda: ClarkPark, i: ClarkPark, lAvg: real, lDiff: real, cos: real, sin: real, pmFlux: real)
  {
    function Iterate(math: FocMath): PmFluxSolver {
      var currentFlux := CurrentFlux(lAvg, lDiff, cos, sin, i);
      var pm := ClarkPark(lambda.d - currentFlux.d, lambda.q - currentFlux.q);
      var flux := math.sqrt(pm.Norm2());
      if flux > 0.0
      then this.(pmFlux := flux, cos := pm.d / flux, sin := pm.q / flux)
      else this.(pmFlux := flux)
    }

    /** The measured flux is that of magnets with flux `flux` at the angle given by `c` and `s`. */
    predicate Measures(flux: real, c: real, s: real) {
      lambda == Linkage(flux, lAvg, lDiff, c, s, i)
    }
  }

  function NewSolver(lambda: ClarkPark, i: ClarkPark, dInductance: real, qInductance: real): PmFluxSolver {
    PmFluxSolver(lambda, i, 0.5 * (dInductance + qInductance), 0.5 * (dInductance - qInductance), 1.0, 0.0, 0.0)
  }

  lemma NormOfScaled(flux: real, c: real, s: real)
    requires Square(c) + Square(s) == 1.0
    ensures ClarkPark(Mul(flux, c), Mul(flux, s)).Norm2() == Square(flux)
  {
    SquareMul(flux, c);
    SquareMul(flux, s);
    MulLinear(Square(flux), Square(c), Square(s));
    MulOne(Square(flux));
    hide Mul, Square;
  }

  lemma RootOfSquare(flux: real, math: FocMath)
    requires math.Exact() && flux >= 0.0
    ensures math.sqrt(Square(flux)) == flux
  {
    SquareSign(flux);
    var root := math.sqrt(Square(flux));
    SquareOrder(root, flux);
    SquareOrder(flux, root);
    hide Square;
  }

  /** One iteration reads off the flux and the angle when the flux of the current it subtracts is the true one. */
  lemma IterateReads(solver: PmFluxSolver, flux: real, c: real, s: real, math: FocMath)
    requires math.Exact() && flux > 0.0 && Square(c) + Square(s) == 1.0 && solver.Measures(flux, c, s)
    requires CurrentFlux(solver.lAvg, solver.lDiff, solver.cos, solver.sin, solver.i)
          == CurrentFlux(solver.lAvg, solver.lDiff, c, s, solver.i)
    ensures solver.Iterate(math) == solver.(pmFlux := flux, cos := c, sin := s)
  {
    NormOfScaled(flux, c, s);
    RootOfSquare(flux, math);
    MulComm(flux, c);
    MulComm(flux, s);
    QuotientOf(c, flux);
    QuotientOf(s, flux);
    hide CurrentFlux, Square, Mul;
  }

  /** The true flux is a fixed point. */
  lemma TrueFluxIsFixed(solver: PmFluxSolver, math: FocMath)
    requires math.Exact() && solver.pmFlux > 0.0 && Square(solver.cos) + Square(solver.sin) == 1.0
    requires solver.Measures(solver.pmFlux, solver.cos, solver.sin)
    ensures solver.Iterate(math) == solver
  {
    IterateReads(solver, solver.pmFlux, solver.cos, solver.sin, math);
    hide CurrentFlux, Square, Mul;
  }

  /** Every fixed point with a flux explains the measurement. */
  lemma FixedPointMeasures(solver: PmFluxSolver, math: FocMath)
    requires math.Exact() && solver.pmFlux > 0.0 && solver.Iterate(math) == solver
    ensures solver.Measures(solver.pmFlux, solver.cos, solver.sin)
  {
    var currentFlux := CurrentFlux(solver.lAvg, solver.lDiff, solver.cos, solver.sin, solver.i);
    var pm := ClarkPark(solver.lambda.d - currentFlux.d, solver.lambda.q - currentFlux.q);
    DivMul(pm.d, solver.pmFlux);
    DivMul(pm.q, solver.pmFlux);
    hide CurrentFlux, Square, Mul;
  }

  lemma RoundInductance(lAvg: real, c: real, s: real, i: ClarkPark)
    ensures CurrentFlux(lAvg, 0.0, c, s, i) == ClarkPark(Mul(lAvg, i.d), Mul(lAvg, i.q))
  {
  }

  /** With equal inductances one iteration, from any angle, gives the true flux. */
  lemma EqualInductancesSolveAtOnce(solver: PmFluxSolver, flux: real, c: real, s: real, math: FocMath)
    requires math.Exact() && flux > 0.0 && Square(c) + Square(s) == 1.0
    requires solver.lDiff == 0.0 && solver.Measures(flux, c, s)
    ensures solver.Iterate(math) == solver.(pmFlux := flux, cos := c, sin := s)
  {
    RoundInductance(solver.lAvg, solver.cos, solver.sin, solver.i);
    RoundInductance(solver.lAvg, c, s, solver.i);
    IterateReads(solver, flux, c, s, math);
    hide CurrentFlux, Square, Mul;
  }
}
