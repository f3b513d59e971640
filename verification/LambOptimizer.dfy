/** LAMB twice: the branch-free op trace, and the in-place reference with its if/else. */
module LambOptimizer {
  import opened Tensors

  datatype Config = Config(
    learningRate: real,
    beta1: real,
    beta2: real,
    eps: real,
    weightDecay: real,
    clipLow: real,
    clipHigh: real)
  {
    ghost predicate Valid() {
      && learningRate >= 0.0 && 0.0 <= beta1 < 1.0 && 0.0 <= beta2 < 1.0 && eps > 0.0 && weightDecay >= 0.0
      && 0.0 <= clipLow < clipHigh
    }
  }

  /** A parameter's shape; its elements are kept in row-major order. */
  datatype Shape = Vector(length: nat) | Matrix(rows: nat, columns: nat) {
    function Size(): nat {
      if Vector? then length else rows * columns
    }
  }

  // ---------- Reductions ----------

  function Sum(a: Tensor): real {
    if a == [] then 0.0 else Sum(a[..|a| - 1]) + a[|a| - 1]
  }

  /** reduce_sum over dimension -2 of a matrix: its rows are added up. */
  function SumOfRows(a: Tensor, rows: nat, columns: nat): (r: Tensor)
    requires |a| == rows * columns
    ensures |r| == columns
  {
    if rows == 0 then Full(columns, 0.0)
    else
      assert rows * columns == (rows - 1) * columns + columns;
      Add(SumOfRows(a[..|a| - columns], rows - 1, columns), a[|a| - columns..])
  }

  /** The trace's total: over dimension -2 if there are two, then over dimension -1. */
  function ReduceSum(a: Tensor, shape: Shape): real
    requires |a| == shape.Size()
  {
    if shape.Matrix? then Sum(SumOfRows(a, shape.rows, shape.columns)) else Sum(a)
  }

  lemma {:induction false} SumOfFull(n: nat)
    ensures Sum(Full(n, 0.0)) == 0.0
  {
    if n > 0 {
      assert Full(n, 0.0)[..n - 1] == Full(n - 1, 0.0);
      SumOfFull(n - 1);
    }
  }

  lemma {:induction false} SumOfAdd(a: Tensor, b: Tensor)
    requires |a| == |b|
    ensures Sum(Add(a, b)) == Sum(a) + Sum(b)
  {
    if a != [] {
      var n := |a| - 1;
      assert Add(a, b)[..n] == Add(a[..n], b[..n]);
      SumOfAdd(a[..n], b[..n]);
    }
  }

  lemma {:induction false} SumOfConcat(a: Tensor, b: Tensor)
    ensures Sum(a + b) == Sum(a) + Sum(b)
  {
    if b == [] {
      assert a + b == a;
    } else {
      var n := |b| - 1;
      assert (a + b)[..|a + b| - 1] == a + b[..n];
      SumOfConcat(a, b[..n]);
    }
  }

  lemma {:induction false} SumOfRowsTotal(a: Tensor, rows: nat, columns: nat)
    requires |a| == rows * columns
    ensures Sum(SumOfRows(a, rows, columns)) == Sum(a)
    decreases rows
  {
    if rows == 0 {
      SumOfFull(columns);
    } else {
      assert rows * columns == (rows - 1) * columns + columns;
      var init, last := a[..|a| - columns], a[|a| - columns..];
      SumOfRowsTotal(init, rows - 1, columns);
      SumOfAdd(SumOfRows(init, rows - 1, columns), last);
      SumOfConcat(init, last);
      assert a == init + last;
    }
  }

  /** Reducing one dimension after the other gives the sum of all elements. */
  lemma ReduceSumIsSum(a: Tensor, shape: Shape)
    requires |a| == shape.Size()
    ensures ReduceSum(a, shape) == Sum(a)
  {
    if shape.Matrix? {
      SumOfRowsTotal(a, shape.rows, shape.columns);
    }
  }

  // ---------- The trust ratio ----------

  function Clip(x: real, lo: real, hi: real): real {
    if x < lo then lo else if x > hi then hi else x
  }

  function Flag(b: bool): real {
    if b then 1.0 else 0.0
  }

  /** The ops of the trace: both branches of the if are computed and selected by 0/1 factors. */
  function TraceTrust(m: Math, c: Config, phi: real, ratio: real): real {
    var clipped := Clip(phi * m.Inverse(ratio), c.clipLow, c.clipHigh);
    (clipped * Flag(ratio != 0.0) + Flag(ratio == 0.0)) * Flag(phi != 0.0) + Flag(phi == 0.0)
  }

  /** The if/else of the reference, then the clamp. */
  function ReferenceTrust(c: Config, phi: real, ratio: real): real {
    Clip(if phi != 0.0 && ratio != 0.0 then phi / ratio else 1.0, c.clipLow, c.clipHigh)
  }

  ghost predicate TrustAgrees(m: Math, c: Config, phi: real, ratio: real) {
    TraceTrust(m, c, phi, ratio) == ReferenceTrust(c, phi, ratio)
  }

  /** Whatever value 1/0 has, the two trust ratios agree for all norms exactly when the clip interval
      contains 1. */
  lemma TrustRatiosAgree(m: Math, c: Config)
    requires c.Valid()
    ensures (forall phi: real, ratio: real :: TrustAgrees(m, c, phi, ratio)) <==> c.clipLow <= 1.0 <= c.clipHigh
  {
    if c.clipLow <= 1.0 <= c.clipHigh {
      forall phi: real, ratio: real
        ensures TrustAgrees(m, c, phi, ratio)
      {
        if ratio != 0.0 {
          TimesInverse(m, phi, ratio);
        }
      }
    } else {
      assert !TrustAgrees(m, c, 0.0, 1.0);
    }
  }

  // ---------- The op trace ----------

  datatype Looped = Looped(parameter: Tensor, mean: Tensor, variance: Tensor) {
    ghost predicate Valid() {
      |parameter| == |mean| == |variance|
    }
  }

  function TraceMean(c: Config, mean: Tensor, grad: Tensor): (r: Tensor)
    requires |mean| == |grad|
    ensures |r| == |mean|
  {
    Add(Multiply(Full(|mean|, c.beta1), mean), Multiply(Full(|mean|, 1.0 - c.beta1), grad))
  }

  function TraceVariance(c: Config, variance: Tensor, grad: Tensor): (r: Tensor)
    requires |variance| == |grad|
    ensures |r| == |variance|
  {
    Add(Multiply(Full(|variance|, c.beta2), variance), Multiply(Full(|variance|, 1.0 - c.beta2), Multiply(grad, grad)))
  }

  /** The adam ratio r(t). */
  function TraceRatio(m: Math, c: Config, parameter: Tensor, mean: Tensor, variance: Tensor): (r: Tensor)
    requires |parameter| == |mean| == |variance|
    ensures |r| == |parameter|
  {
    var n := |parameter|;
    var ratio := Multiply(mean, m.Reciprocal(Add(m.Sqrt(variance), Full(n, c.eps))));
    if c.weightDecay != 0.0 then Add(ratio, Multiply(parameter, Full(n, c.weightDecay))) else ratio
  }

  function TraceNorm(m: Math, a: Tensor, shape: Shape): real
    requires |a| == shape.Size()
  {
    m.sqrt(ReduceSum(Multiply(a, a), shape))
  }

  function TraceUpdate(c: Config, parameter: Tensor, ratio: Tensor, trust: real): (r: Tensor)
    requires |parameter| == |ratio|
    ensures |r| == |parameter|
  {
    var n := |parameter|;
    Subtract(parameter, Multiply(Multiply(Full(n, trust), ratio), Full(n, c.learningRate)))
  }

  /** One evaluation of the ops made by generate_op_trace, with updated values looped back. */
  function TraceStep(m: Math, c: Config, shape: Shape, s: Looped, gradient: Tensor): (s': Looped)
    requires s.Valid() && |gradient| == |s.parameter| == shape.Size()
    ensures s'.Valid() && |s'.parameter| == |s.parameter|
  {
    var mean, variance := TraceMean(c, s.mean, gradient), TraceVariance(c, s.variance, gradient);
    var ratio := TraceRatio(m, c, s.parameter, mean, variance);
    var trust := TraceTrust(m, c, TraceNorm(m, s.parameter, shape), TraceNorm(m, ratio, shape));
    Looped(TraceUpdate(c, s.parameter, ratio, trust), mean, variance)
  }

  // ---------- The in-place reference ----------

  function NextMean(c: Config, mean: Tensor, grad: Tensor): (r: Tensor)
    requires |mean| == |grad|
    ensures |r| == |mean|
  {
    Add(Scaled(mean, c.beta1), Scaled(grad, 1.0 - c.beta1))
  }

  function NextVariance(c: Config, variance: Tensor, grad: Tensor): (r: Tensor)
    requires |variance| == |grad|
    ensures |r| == |variance|
  {
    Add(Scaled(variance, c.beta2), Scaled(Multiply(grad, grad), 1.0 - c.beta2))
  }

  lemma VarianceStaysNonNegative(c: Config, v: Tensor, g: Tensor)
    requires c.Valid() && |v| == |g| && NoneNegative(v)
    ensures NoneNegative(NextVariance(c, v, g))
  {
    forall i | 0 <= i < |v|
      ensures NextVariance(c, v, g)[i] >= 0.0
    {
      NonNegative(v[i], c.beta2);
      SquareNonNegative(g[i]);
      NonNegative(g[i] * g[i], 1.0 - c.beta2);
    }
  }

  function AdamRatio(m: Math, c: Config, param: Tensor, mean: Tensor, variance: Tensor): (r: Tensor)
    requires |param| == |mean| == |variance|
    requires forall i | 0 <= i < |variance| :: Denominator(m, c.eps, variance)[i] != 0.0
    ensures |r| == |param|
  {
    var ratio := Quotients(mean, Denominator(m, c.eps, variance));
    if c.weightDecay != 0.0 then Add(ratio, Scaled(param, c.weightDecay)) else ratio
  }

  function Norm(m: Math, a: Tensor): real {
    m.sqrt(Sum(Multiply(a, a)))
  }

  function StepSize(c: Config, trust: real): real {
    -c.learningRate * trust
  }

  function Moved(c: Config, parameter: Tensor, ratio: Tensor, trust: real): (r: Tensor)
    requires |parameter| == |ratio|
    ensures |r| == |parameter|
  {
    Add(parameter, Scaled(ratio, StepSize(c, trust)))
  }

  /** LAMB.step, without correction, as a function of the old tensors. */
  ghost function ReferenceStep(m: Math, c: Config, s: Looped, grad: Tensor): (s': Looped)
    requires m.Valid() && c.Valid() && s.Valid() && |grad| == |s.parameter| && NoneNegative(s.variance)
    ensures s'.Valid() && |s'.parameter| == |s.parameter| && NoneNegative(s'.variance)
  {
    var mean, variance := NextMean(c, s.mean, grad), NextVariance(c, s.variance, grad);
    VarianceStaysNonNegative(c, s.variance, grad);
    DenominatorPositive(m, c.eps, variance);
    var ratio := AdamRatio(m, c, s.parameter, mean, variance);
    var trust := ReferenceTrust(c, Norm(m, s.parameter), Norm(m, ratio));
    Looped(Moved(c, s.parameter, ratio, trust), mean, variance)
  }

  /** The tensors the reference optimizer updates in place. */
  class Lamb {
    const math: Math
    const config: Config
    const param: array<real>
    const mean: array<real>
    const variance: array<real>

    ghost predicate Valid()
      reads this, variance
    {
      && math.Valid() && config.Valid()
      && param != mean && param != variance && mean != variance
      && param.Length == mean.Length == variance.Length
      && NoneNegative(variance[..])
    }

    ghost function Now(): Looped
      reads param, mean, variance
    {
      Looped(param[..], mean[..], variance[..])
    }

    constructor (math: Math, config: Config, parameter: Tensor)
      requires math.Valid() && config.Valid()
      ensures Valid() && this.math == math && this.config == config
      ensures Now() == Looped(parameter, Full(|parameter|, 0.0), Full(|parameter|, 0.0))
      ensures fresh(param) && fresh(mean) && fresh(variance)
    {
      this.math, this.config := math, config;
      param := new real[|parameter|](i requires 0 <= i < |parameter| => parameter[i]);
      mean := new real[|parameter|](_ => 0.0);
      variance := new real[|parameter|](_ => 0.0);
    }

    method Step(grad: Tensor)
      requires Valid() && |grad| == param.Length
      modifies param, mean, variance
      ensures Valid() && Now() == ReferenceStep(math, config, old(Now()), grad)
    {
      UpdateMoments(grad);
      var phi := Norm(math, param[..]);
      DenominatorPositive(math, config.eps, variance[..]);
      var ratio := AdamRatio(math, config, param[..], mean[..], variance[..]);
      var trust := ReferenceTrust(config, phi, Norm(math, ratio));
      PlusInPlace(param, Scaled(ratio, StepSize(config, trust)));
    }

    method UpdateMoments(grad: Tensor)
      requires Valid() && |grad| == param.Length
      modifies mean, variance
      ensures mean[..] == NextMean(config, old(mean[..]), grad)
      ensures variance[..] == NextVariance(config, old(variance[..]), grad)
      ensures NoneNegative(variance[..])
    {
      ghost var u, v := mean[..], variance[..];
      VarianceStaysNonNegative(config, v, grad);
      MulInPlace(mean, config.beta1);
      PlusInPlace(mean, Scaled(grad, 1.0 - config.beta1));
      MulInPlace(variance, config.beta2);
      PlusInPlace(variance, Scaled(Multiply(grad, grad), 1.0 - config.beta2));
      assert mean[..] == NextMean(config, u, grad) && variance[..] == NextVariance(config, v, grad);
    }
  }

  // ---------- The trace simulates the reference ----------

  lemma MeansAgree(c: Config, mean: Tensor, g: Tensor)
    requires |mean| == |g|
    ensures TraceMean(c, mean, g) == NextMean(c, mean, g)
  {
    var m, m' := TraceMean(c, mean, g), NextMean(c, mean, g);
    assert forall i | 0 <= i < |g| :: m[i] == m'[i];
  }

  lemma VariancesAgree(c: Config, variance: Tensor, g: Tensor)
    requires |variance| == |g|
    ensures TraceVariance(c, variance, g) == NextVariance(c, variance, g)
  {
    var v, v' := TraceVariance(c, variance, g), NextVariance(c, variance, g);
    assert forall i | 0 <= i < |g| :: v[i] == v'[i];
  }

  lemma RatiosAgree(m: Math, c: Config, parameter: Tensor, mean: Tensor, variance: Tensor)
    requires |parameter| == |mean| == |variance| && Divides(Denominator(m, c.eps, variance))
    ensures TraceRatio(m, c, parameter, mean, variance) == AdamRatio(m, c, parameter, mean, variance)
  {
    var r, r' := TraceRatio(m, c, parameter, mean, variance), AdamRatio(m, c, parameter, mean, variance);
    forall i | 0 <= i < |r|
      ensures r[i] == r'[i]
    {
      TimesInverse(m, mean[i], Denominator(m, c.eps, variance)[i]);
    }
  }

  lemma NormsAgree(m: Math, a: Tensor, shape: Shape)
    requires |a| == shape.Size()
    ensures TraceNorm(m, a, shape) == Norm(m, a)
  {
    ReduceSumIsSum(Multiply(a, a), shape);
  }

  lemma UpdatesAgree(c: Config, parameter: Tensor, ratio: Tensor, trust: real)
    requires |parameter| == |ratio|
    ensures TraceUpdate(c, parameter, ratio, trust) == Moved(c, parameter, ratio, trust)
  {
    var u, u' := TraceUpdate(c, parameter, ratio, trust), Moved(c, parameter, ratio, trust);
    forall i | 0 <= i < |parameter|
      ensures u[i] == u'[i]
    {
      assert (trust * ratio[i]) * c.learningRate == -(ratio[i] * (-c.learningRate * trust));
    }
  }

  lemma StepSimulates(m: Math, c: Config, shape: Shape, s: Looped, gradient: Tensor)
    requires m.Valid() && c.Valid() && s.Valid() && |gradient| == |s.parameter| == shape.Size()
    requires NoneNegative(s.variance)
    requires c.clipLow <= 1.0 <= c.clipHigh
    ensures TraceStep(m, c, shape, s, gradient) == ReferenceStep(m, c, s, gradient)
  {
    MeansAgree(c, s.mean, gradient);
    VariancesAgree(c, s.variance, gradient);
    var mean, variance := NextMean(c, s.mean, gradient), NextVariance(c, s.variance, gradient);
    VarianceStaysNonNegative(c, s.variance, gradient);
    DenominatorPositive(m, c.eps, variance);
    RatiosAgree(m, c, s.parameter, mean, variance);
    var ratio := AdamRatio(m, c, s.parameter, mean, variance);
    NormsAgree(m, s.parameter, shape);
    NormsAgree(m, ratio, shape);
    TrustRatiosAgree(m, c);
    assert TrustAgrees(m, c, Norm(m, s.parameter), Norm(m, ratio));
    UpdatesAgree(c, s.parameter, ratio, ReferenceTrust(c, Norm(m, s.parameter), Norm(m, ratio)));
  }

  // ---------- Whole runs ----------

  ghost predicate Fits(gradients: seq<Tensor>, n: nat) {
    forall k | 0 <= k < |gradients| :: |gradients[k]| == n
  }

  function Initial(parameter: Tensor): (s: Looped)
    ensures s.Valid() && NoneNegative(s.variance)
  {
    Looped(parameter, Full(|parameter|, 0.0), Full(|parameter|, 0.0))
  }

  ghost function TraceRun(m: Math, c: Config, shape: Shape, parameter: Tensor, gradients: seq<Tensor>): (s: Looped)
    requires |parameter| == shape.Size() && Fits(gradients, |parameter|)
    ensures s.Valid() && |s.parameter| == |parameter|
  {
    if gradients == [] then Initial(parameter)
    else TraceStep(m, c, shape, TraceRun(m, c, shape, parameter, gradients[..|gradients| - 1]),
                   gradients[|gradients| - 1])
  }

  ghost function ReferenceRun(m: Math, c: Config, parameter: Tensor, gradients: seq<Tensor>): (s: Looped)
    requires m.Valid() && c.Valid() && Fits(gradients, |parameter|)
    ensures s.Valid() && |s.parameter| == |parameter| && NoneNegative(s.variance)
  {
    if gradients == [] then Initial(parameter)
    else ReferenceStep(m, c, ReferenceRun(m, c, parameter, gradients[..|gradients| - 1]), gradients[|gradients| - 1])
  }

  ghost predicate RunAgrees(m: Math, c: Config, shape: Shape, parameter: Tensor, gradients: seq<Tensor>)
    requires m.Valid() && c.Valid() && |parameter| == shape.Size() && Fits(gradients, |parameter|)
  {
    TraceRun(m, c, shape, parameter, gradients) == ReferenceRun(m, c, parameter, gradients)
  }

  lemma {:induction false} RunSimulates(m: Math, c: Config, shape: Shape, parameter: Tensor, gradients: seq<Tensor>)
    requires m.Valid() && c.Valid() && |parameter| == shape.Size() && Fits(gradients, |parameter|)
    requires c.clipLow <= 1.0 <= c.clipHigh
    ensures RunAgrees(m, c, shape, parameter, gradients)
  {
    if gradients != [] {
      var before := gradients[..|gradients| - 1];
      RunSimulates(m, c, shape, parameter, before);
      StepSimulates(m, c, shape, ReferenceRun(m, c, parameter, before), gradients[|gradients| - 1]);
    }
  }

  ghost predicate AllRunsAgree(m: Math, c: Config)
    requires m.Valid() && c.Valid()
  {
    forall shape: Shape, parameter: Tensor, gradients: seq<Tensor> |
      |parameter| == shape.Size() && Fits(gradients, |parameter|) :: RunAgrees(m, c, shape, parameter, gradients)
  }

  /** Trace and reference go through the same tensors on every run, exactly when the clip interval
      contains 1. */
  lemma RunsAgree(m: Math, c: Config)
    requires m.Valid() && c.Valid() && c.learningRate > 0.0
    ensures AllRunsAgree(m, c) <==> c.clipLow <= 1.0 <= c.clipHigh
  {
    if c.clipLow <= 1.0 <= c.clipHigh {
      forall shape: Shape, parameter: Tensor, gradients: seq<Tensor> |
             |parameter| == shape.Size() && Fits(gradients, |parameter|)
        ensures RunAgrees(m, c, shape, parameter, gradients)
      {
        RunSimulates(m, c, shape, parameter, gradients);
      }
    } else {
      ZeroParameterDiverges(m, c);
      assert !RunAgrees(m, c, Vector(1), [0.0], [[1.0]]);
    }
  }

  /** A zero parameter has norm 0: the trace moves it by the full ratio, the reference by the clamped one. */
  lemma ZeroParameterDiverges(m: Math, c: Config)
    requires m.Valid() && c.Valid() && c.learningRate > 0.0 && !(c.clipLow <= 1.0 <= c.clipHigh)
    ensures !RunAgrees(m, c, Vector(1), [0.0], [[1.0]])
  {
    var s, g: Tensor := Initial([0.0]), [1.0];
    var mean, variance := NextMean(c, s.mean, g), NextVariance(c, s.variance, g);
    OneStepRuns(m, c, s.parameter, g);
    VarianceStaysNonNegative(c, s.variance, g);
    DenominatorPositive(m, c.eps, variance);
    var ratio := AdamRatio(m, c, s.parameter, mean, variance);
    TraceOfZero(m, c, s, g, ratio);
    ReferenceOfZero(m, c, s, g, ratio);
    FirstRatio(m, c, mean, variance);
    MovesDiffer(c, s.parameter, ratio, 1.0, Clip(1.0, c.clipLow, c.clipHigh));
  }

  lemma OneStepRuns(m: Math, c: Config, parameter: Tensor, g: Tensor)
    requires m.Valid() && c.Valid() && |parameter| == |g|
    ensures TraceRun(m, c, Vector(|parameter|), parameter, [g])
         == TraceStep(m, c, Vector(|parameter|), Initial(parameter), g)
    ensures ReferenceRun(m, c, parameter, [g]) == ReferenceStep(m, c, Initial(parameter), g)
  {
    var gradients: seq<Tensor> := [g];
    assert gradients[..0] == [];
  }

  lemma TraceOfZero(m: Math, c: Config, s: Looped, g: Tensor, ratio: Tensor)
    requires m.Valid() && c.Valid() && s == Initial([0.0]) && |g| == 1
    requires var variance := NextVariance(c, s.variance, g);
      Divides(Denominator(m, c.eps, variance))
      && ratio == AdamRatio(m, c, s.parameter, NextMean(c, s.mean, g), variance)
    ensures TraceStep(m, c, Vector(1), s, g).parameter == Moved(c, s.parameter, ratio, 1.0)
  {
    MeansAgree(c, s.mean, g);
    VariancesAgree(c, s.variance, g);
    RatiosAgree(m, c, s.parameter, NextMean(c, s.mean, g), NextVariance(c, s.variance, g));
    NormsAgree(m, s.parameter, Vector(1));
    ZeroNorm(m);
    TrustOfZero(m, c, TraceNorm(m, ratio, Vector(1)));
    UpdatesAgree(c, s.parameter, ratio, 1.0);
  }

  lemma ReferenceOfZero(m: Math, c: Config, s: Looped, g: Tensor, ratio: Tensor)
    requires m.Valid() && c.Valid() && s == Initial([0.0]) && |g| == 1
    requires var variance := NextVariance(c, s.variance, g);
      Divides(Denominator(m, c.eps, variance))
      && ratio == AdamRatio(m, c, s.parameter, NextMean(c, s.mean, g), variance)
    ensures ReferenceStep(m, c, s, g).parameter == Moved(c, s.parameter, ratio, Clip(1.0, c.clipLow, c.clipHigh))
  {
    ZeroNorm(m);
    TrustOfZero(m, c, Norm(m, ratio));
  }

  lemma ZeroNorm(m: Math)
    requires m.Valid()
    ensures Norm(m, [0.0]) == 0.0
  {
    var a := Multiply([0.0], [0.0]);
    assert a[0] == 0.0 && a[..0] == [];
    assert Sum(a) == 0.0;
    SquaresDetermine(m.sqrt(0.0), 0.0);
  }

  lemma TrustOfZero(m: Math, c: Config, ratio: real)
    ensures TraceTrust(m, c, 0.0, ratio) == 1.0
    ensures ReferenceTrust(c, 0.0, ratio) == Clip(1.0, c.clipLow, c.clipHigh)
  {
  }

  lemma FirstRatio(m: Math, c: Config, mean: Tensor, variance: Tensor)
    requires m.Valid() && c.Valid() && |mean| == |variance| == 1 && Divides(Denominator(m, c.eps, variance))
    requires mean == NextMean(c, [0.0], [1.0])
    ensures AdamRatio(m, c, [0.0], mean, variance)[0] != 0.0
  {
    var d := Denominator(m, c.eps, variance);
    assert mean[0] == 1.0 - c.beta1;
    var q := Quotients(mean, d)[0];
    assert q * d[0] == mean[0];
    assert Scaled([0.0], c.weightDecay)[0] == 0.0;
  }

  lemma MovesDiffer(c: Config, parameter: Tensor, ratio: Tensor, t: real, u: real)
    requires |parameter| == |ratio| == 1 && ratio[0] != 0.0 && c.learningRate > 0.0 && t != u
    ensures Moved(c, parameter, ratio, t) != Moved(c, parameter, ratio, u)
  {
    Cancels(t, u, -c.learningRate);
    Cancels(StepSize(c, t), StepSize(c, u), ratio[0]);
    assert Moved(c, parameter, ratio, t)[0] == parameter[0] + ratio[0] * StepSize(c, t);
    assert Moved(c, parameter, ratio, u)[0] == parameter[0] + ratio[0] * StepSize(c, u);
  }

  lemma Cancels(a: real, b: real, y: real)
    requires a != b && y != 0.0
    ensures y * a != y * b
  {
    if y * a == y * b {
      QuotientUnique(a, b, y);
    }
  }
}
