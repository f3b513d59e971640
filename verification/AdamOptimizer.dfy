/** Adam twice: the op trace with looped-back state, and the in-place reference optimizer. */
module AdamOptimizer {
  import opened Tensors

  datatype Config = Config(
    beta1: real,
    beta2: real,
    epsilon: real,
    weightDecay: real,
    biasCorrection: bool,
    enableAdamW: bool)
  {
    ghost predicate Valid() {
      0.0 <= beta1 < 1.0 && 0.0 <= beta2 < 1.0 && epsilon > 0.0 && weightDecay >= 0.0
    }
  }

  /** The parameter and the optimizer inputs that are looped back. */
  datatype Looped = Looped(parameter: Tensor, mean: Tensor, variance: Tensor, beta1Pow: Tensor, beta2Pow: Tensor) {
    ghost predicate Valid() {
      |parameter| == |mean| == |variance| == |beta1Pow| == |beta2Pow|
    }
  }

  function Initial(parameter: Tensor): (s: Looped)
    ensures s.Valid()
  {
    var n := |parameter|;
    Looped(parameter, Full(n, 0.0), Full(n, 0.0), Full(n, 1.0), Full(n, 1.0))
  }

  // ---------- The op trace ----------

  /** The gradient after L2 weight decay, where the trace adds it. */
  function EffectiveGradient(c: Config, parameter: Tensor, gradient: Tensor): (g: Tensor)
    requires |parameter| == |gradient|
    ensures |g| == |gradient|
  {
    if c.weightDecay > 0.0 && !c.enableAdamW then
      Add(gradient, Multiply(Full(|parameter|, c.weightDecay), parameter))
    else
      gradient
  }

  function TraceMean(c: Config, mean: Tensor, gradient: Tensor): (r: Tensor)
    requires |mean| == |gradient|
    ensures |r| == |mean|
  {
    Add(Multiply(mean, Full(|mean|, c.beta1)), Multiply(gradient, Full(|mean|, 1.0 - c.beta1)))
  }

  function TraceVariance(c: Config, variance: Tensor, gradient: Tensor): (r: Tensor)
    requires |variance| == |gradient|
    ensures |r| == |variance|
  {
    Add(Multiply(variance, Full(|variance|, c.beta2)),
        Multiply(Multiply(gradient, gradient), Full(|variance|, 1.0 - c.beta2)))
  }

  /** The root the step divides by, corrected or not. */
  function TraceRoot(m: Math, c: Config, variance: Tensor, beta2Pow: Tensor): (r: Tensor)
    requires |variance| == |beta2Pow|
    ensures |r| == |variance|
  {
    if c.biasCorrection then
      Multiply(m.Sqrt(variance), m.Reciprocal(m.Sqrt(Subtract(Full(|variance|, 1.0), beta2Pow))))
    else
      m.Sqrt(variance)
  }

  /** Mean over root plus epsilon, with the mean corrected or not. */
  function TraceDirection(m: Math, c: Config, mean: Tensor, root: Tensor, beta1Pow: Tensor): (r: Tensor)
    requires |mean| == |root| == |beta1Pow|
    ensures |r| == |mean|
  {
    var reciprocal := m.Reciprocal(Add(root, Full(|mean|, c.epsilon)));
    if c.biasCorrection then
      Multiply(Multiply(mean, m.Reciprocal(Subtract(Full(|mean|, 1.0), beta1Pow))), reciprocal)
    else
      Multiply(mean, reciprocal)
  }

  function TraceParameter(c: Config, parameter: Tensor, direction: Tensor, lr: Tensor): (r: Tensor)
    requires |parameter| == |direction| == |lr|
    ensures |r| == |parameter|
  {
    var decayed :=
      if c.weightDecay > 0.0 && c.enableAdamW then
        Add(direction, Multiply(Full(|parameter|, c.weightDecay), parameter))
      else
        direction;
    Subtract(parameter, Multiply(decayed, lr))
  }

  function TracePower(c: Config, power: Tensor, beta: real): (r: Tensor)
    ensures |r| == |power|
  {
    if c.biasCorrection then Multiply(power, Full(|power|, beta)) else power
  }

  /** One evaluation of the ops made by generate_op_trace, with updated values looped back. */
  function TraceStep(m: Math, c: Config, s: Looped, gradient0: Tensor, lr: Tensor): (s': Looped)
    requires s.Valid() && |gradient0| == |lr| == |s.parameter|
    ensures s'.Valid() && |s'.parameter| == |s.parameter|
  {
    var gradient := EffectiveGradient(c, s.parameter, gradient0);
    var updatedMean, updatedVariance := TraceMean(c, s.mean, gradient), TraceVariance(c, s.variance, gradient);
    var beta1Pow, beta2Pow := TracePower(c, s.beta1Pow, c.beta1), TracePower(c, s.beta2Pow, c.beta2);
    var direction := TraceDirection(m, c, updatedMean, TraceRoot(m, c, updatedVariance, beta2Pow), beta1Pow);
    Looped(TraceParameter(c, s.parameter, direction, lr), updatedMean, updatedVariance, beta1Pow, beta2Pow)
  }

  // ---------- The in-place reference ----------

  /** What the reference keeps per parameter. */
  datatype Reference = Reference(param: Tensor, expAvg: Tensor, expAvgSq: Tensor)

  function NextMean(c: Config, mean: Tensor, grad: Tensor): (r: Tensor)
    requires |mean| == |grad|
    ensures |r| == |mean|
  {
    Axpy(Scaled(mean, c.beta1), grad, 1.0 - c.beta1)
  }

  function NextVariance(c: Config, variance: Tensor, grad: Tensor): (r: Tensor)
    requires |variance| == |grad|
    ensures |r| == |variance|
  {
    Axpy(Scaled(variance, c.beta2), Multiply(grad, grad), 1.0 - c.beta2)
  }

  lemma VarianceStaysNonNegative(c: Config, v: Tensor, g: Tensor)
    requires c.Valid() && |v| == |g| && NoneNegative(v)
    ensures NoneNegative(NextVariance(c, v, g))
  {
    forall i | 0 <= i < |v|
      ensures NextVariance(c, v, g)[i] >= 0.0
    {
      NonNegative(v[i], c.beta2);
      SquareNonNegative(g[i]);
      NonNegative(1.0 - c.beta2, g[i] * g[i]);
    }
  }

  function DecayFactor(c: Config, lr: real): real {
    1.0 - lr * c.weightDecay
  }

  function DecayedParam(c: Config, param: Tensor, lr: real): (r: Tensor)
    ensures |r| == |param|
  {
    if c.weightDecay != 0.0 && c.enableAdamW then Scaled(param, DecayFactor(c, lr)) else param
  }

  function DecayedGrad(c: Config, param: Tensor, grad: Tensor): (r: Tensor)
    requires |param| == |grad|
    ensures |r| == |grad|
  {
    if c.weightDecay != 0.0 && !c.enableAdamW then Axpy(grad, param, c.weightDecay) else grad
  }

  /** adam_no_bias_correction as a function of the old tensors. */
  ghost function ReferenceStep(m: Math, c: Config, r: Reference, grad0: Tensor, lr: real): (r': Reference)
    requires m.Valid() && c.Valid() && |r.param| == |r.expAvg| == |r.expAvgSq| == |grad0| && NoneNegative(r.expAvgSq)
    ensures |r'.param| == |r'.expAvg| == |r'.expAvgSq| == |r.param| && NoneNegative(r'.expAvgSq)
  {
    var grad := DecayedGrad(c, r.param, grad0);
    var expAvg, expAvgSq := NextMean(c, r.expAvg, grad), NextVariance(c, r.expAvgSq, grad);
    VarianceStaysNonNegative(c, r.expAvgSq, grad);
    DenominatorPositive(m, c.epsilon, expAvgSq);
    Reference(Axpy(DecayedParam(c, r.param, lr), Quotients(expAvg, Denominator(m, c.epsilon, expAvgSq)), -lr),
              expAvg, expAvgSq)
  }

  /** The tensors AdamNoBiasCorrection updates in place. */
  class AdamNoBiasCorrection {
    const config: Config
    const math: Math
    const param: array<real>
    const expAvg: array<real>
    const expAvgSq: array<real>

    ghost predicate Valid()
      reads this, expAvgSq
    {
      && math.Valid() && config.Valid()
      && param != expAvg && param != expAvgSq && expAvg != expAvgSq
      && param.Length == expAvg.Length == expAvgSq.Length
      && NoneNegative(expAvgSq[..])
    }

    ghost function Now(): Reference
      reads param, expAvg, expAvgSq
    {
      Reference(param[..], expAvg[..], expAvgSq[..])
    }

    constructor (math: Math, config: Config, parameter: Tensor)
      requires math.Valid() && config.Valid()
      ensures Valid() && this.math == math && this.config == config
      ensures Now() == Reference(parameter, Full(|parameter|, 0.0), Full(|parameter|, 0.0))
      ensures fresh(param) && fresh(expAvg) && fresh(expAvgSq)
    {
      this.math, this.config := math, config;
      param := new real[|parameter|](i requires 0 <= i < |parameter| => parameter[i]);
      expAvg := new real[|parameter|](_ => 0.0);
      expAvgSq := new real[|parameter|](_ => 0.0);
    }

    method Step(grad0: Tensor, lr: real)
      requires Valid() && |grad0| == param.Length
      modifies param, expAvg, expAvgSq
      ensures Valid()
      ensures Now() == ReferenceStep(math, config, old(Now()), grad0, lr)
    {
      var grad := DecayWeights(grad0, lr);
      UpdateMoments(grad);
      DenominatorPositive(math, config.epsilon, expAvgSq[..]);
      AddcdivInPlace(param, expAvg[..], Denominator(math, config.epsilon, expAvgSq[..]), -lr);
    }

    method DecayWeights(grad0: Tensor, lr: real) returns (grad: Tensor)
      requires Valid() && |grad0| == param.Length
      modifies param
      ensures param[..] == DecayedParam(config, old(param[..]), lr)
      ensures grad == DecayedGrad(config, old(param[..]), grad0)
    {
      grad := grad0;
      if config.weightDecay != 0.0 && config.enableAdamW {
        MulInPlace(param, DecayFactor(config, lr));
      } else if config.weightDecay != 0.0 {
        grad := Axpy(grad, param[..], config.weightDecay);
      }
    }

    method UpdateMoments(grad: Tensor)
      requires Valid() && |grad| == param.Length
      modifies expAvg, expAvgSq
      ensures expAvg[..] == NextMean(config, old(expAvg[..]), grad)
      ensures expAvgSq[..] == NextVariance(config, old(expAvgSq[..]), grad)
      ensures NoneNegative(expAvgSq[..])
    {
      ghost var v, u := expAvgSq[..], expAvg[..];
      VarianceStaysNonNegative(config, v, grad);
      MulInPlace(expAvg, config.beta1);
      AddInPlace(expAvg, grad, 1.0 - config.beta1);
      MulInPlace(expAvgSq, config.beta2);
      AddcmulInPlace(expAvgSq, grad, grad, 1.0 - config.beta2);
      assert expAvg[..] == NextMean(config, u, grad);
      assert expAvgSq[..] == NextVariance(config, v, grad);
    }
  }

  // ---------- The trace simulates the reference ----------

  ghost predicate Simulates(s: Looped, r: Reference) {
    s.Valid() && s.parameter == r.param && s.mean == r.expAvg && s.variance == r.expAvgSq && NoneNegative(r.expAvgSq)
  }

  lemma GradientsAgree(c: Config, param: Tensor, grad: Tensor)
    requires c.Valid() && |param| == |grad|
    ensures EffectiveGradient(c, param, grad) == DecayedGrad(c, param, grad)
  {
    var g, g' := EffectiveGradient(c, param, grad), DecayedGrad(c, param, grad);
    assert forall i | 0 <= i < |g| :: g[i] == g'[i];
  }

  lemma MeansAgree(c: Config, mean: Tensor, g: Tensor)
    requires |mean| == |g|
    ensures TraceMean(c, mean, g) == NextMean(c, mean, g)
  {
    var m, m' := TraceMean(c, mean, g), NextMean(c, mean, g);
    assert forall i | 0 <= i < |g| :: m[i] == m'[i];
  }

  lemma VariancesAgree(c: Config, variance: Tensor, g: Tensor)
    requires |variance| == |g|
    ensures TraceVariance(c, variance, g) == NextVariance(c, variance, g)
  {
    var v, v' := TraceVariance(c, variance, g), NextVariance(c, variance, g);
    assert forall i | 0 <= i < |g| :: v[i] == v'[i];
  }

  /** One coordinate of the two parameter updates. */
  lemma UpdatesAgree(m: Math, p: real, mean: real, denom: real, lr: real, wd: real)
    requires denom != 0.0
    ensures p - (mean * m.Inverse(denom)) * lr == p + (-lr) * (mean / denom)
    ensures p - (mean * m.Inverse(denom) + wd * p) * lr == p * (1.0 - lr * wd) + (-lr) * (mean / denom)
  {
    TimesInverse(m, mean, denom);
    var q := mean / denom;
    assert (q + wd * p) * lr == q * lr + (lr * wd) * p;
  }

  lemma StepSimulates(m: Math, c: Config, s: Looped, r: Reference, gradient: Tensor, lr: real)
    requires m.Valid() && c.Valid() && !c.biasCorrection && Simulates(s, r) && |gradient| == |s.parameter|
    ensures Simulates(TraceStep(m, c, s, gradient, Full(|gradient|, lr)), ReferenceStep(m, c, r, gradient, lr))
  {
    var n, g := |gradient|, DecayedGrad(c, r.param, gradient);
    GradientsAgree(c, s.parameter, gradient);
    MeansAgree(c, s.mean, g);
    VariancesAgree(c, s.variance, g);
    var s', r' := TraceStep(m, c, s, gradient, Full(n, lr)), ReferenceStep(m, c, r, gradient, lr);
    VarianceStaysNonNegative(c, r.expAvgSq, g);
    DenominatorPositive(m, c.epsilon, r'.expAvgSq);
    forall i | 0 <= i < n
      ensures s'.parameter[i] == r'.param[i]
    {
      UpdatesAgree(m, s.parameter[i], r'.expAvg[i], Denominator(m, c.epsilon, r'.expAvgSq)[i], lr, c.weightDecay);
    }
  }

  // ---------- Whole runs ----------

  /** One training step: the gradient and the learning rate in force. */
  datatype TrainStep = TrainStep(gradient: Tensor, lr: real)

  ghost predicate Fits(steps: seq<TrainStep>, n: nat) {
    forall k | 0 <= k < |steps| :: |steps[k].gradient| == n
  }

  ghost function TraceRun(m: Math, c: Config, parameter: Tensor, steps: seq<TrainStep>): (s: Looped)
    requires Fits(steps, |parameter|)
    ensures s.Valid() && |s.parameter| == |parameter|
  {
    if steps == [] then Initial(parameter)
    else
      var last := steps[|steps| - 1];
      TraceStep(m, c, TraceRun(m, c, parameter, steps[..|steps| - 1]), last.gradient, Full(|parameter|, last.lr))
  }

  ghost function ReferenceRun(m: Math, c: Config, parameter: Tensor, steps: seq<TrainStep>): (r: Reference)
    requires m.Valid() && c.Valid() && Fits(steps, |parameter|)
    ensures |r.param| == |r.expAvg| == |r.expAvgSq| == |parameter| && NoneNegative(r.expAvgSq)
  {
    var n := |parameter|;
    if steps == [] then Reference(parameter, Full(n, 0.0), Full(n, 0.0))
    else
      var last := steps[|steps| - 1];
      ReferenceStep(m, c, ReferenceRun(m, c, parameter, steps[..|steps| - 1]), last.gradient, last.lr)
  }

  /** For every run and either kind of weight decay, with bias correction off, the trace and the
      reference go through the same parameters, means and variances. */
  lemma {:induction false} RunsAgree(m: Math, c: Config, parameter: Tensor, steps: seq<TrainStep>)
    requires m.Valid() && c.Valid() && !c.biasCorrection && Fits(steps, |parameter|)
    ensures Simulates(TraceRun(m, c, parameter, steps), ReferenceRun(m, c, parameter, steps))
  {
    if steps != [] {
      var before, last := steps[..|steps| - 1], steps[|steps| - 1];
      RunsAgree(m, c, parameter, before);
      StepSimulates(m, c, TraceRun(m, c, parameter, before), ReferenceRun(m, c, parameter, before),
                    last.gradient, last.lr);
    }
  }

  /** A reference optimizer that is stepped through a run holds the run's tensors. */
  method TrainReference(math: Math, config: Config, parameter: Tensor, steps: seq<TrainStep>)
      returns (opt: AdamNoBiasCorrection)
    requires math.Valid() && config.Valid() && Fits(steps, |parameter|)
    ensures opt.Now() == ReferenceRun(math, config, parameter, steps)
  {
    opt := new AdamNoBiasCorrection(math, config, parameter);
    for k := 0 to |steps|
      invariant opt.Valid() && opt.math == math && opt.config == config
      invariant fresh(opt.param) && fresh(opt.expAvg) && fresh(opt.expAvgSq)
      invariant opt.Now() == ReferenceRun(math, config, parameter, steps[..k])
    {
      assert steps[..k + 1][..k] == steps[..k];
      opt.Step(steps[k].gradient, steps[k].lr);
    }
    assert steps[..|steps|] == steps;
  }

  // ---------- Bias correction ----------

  function Power(b: real, t: nat): real {
    if t == 0 then 1.0 else Power(b, t - 1) * b
  }

  lemma {:induction false} PowerBelowOne(b: real, t: nat)
    requires 0.0 <= b < 1.0
    ensures 0.0 <= Power(b, t) <= 1.0
    ensures t > 0 ==> Power(b, t) < 1.0
  {
    if t > 0 {
      PowerBelowOne(b, t - 1);
      NonNegative(Power(b, t - 1), b);
      Monotone(Power(b, t - 1), 1.0, b);
    }
  }

  function Mix(b: real, a: real, x: real): real {
    a * b + x * (1.0 - b)
  }

  /** The exponential moving average of a history, from zero. */
  function Average(b: real, xs: seq<real>): real {
    if xs == [] then 0.0 else Mix(b, Average(b, xs[..|xs| - 1]), xs[|xs| - 1])
  }

  /** 1 - b^t, what the moments after t steps are divided by. */
  function Correction(b: real, t: nat): (w: real)
    requires 0.0 <= b < 1.0 && t > 0
    ensures 0.0 < w <= 1.0
  {
    PowerBelowOne(b, t);
    1.0 - Power(b, t)
  }

  /** The average of t ones: the total weight of t values. */
  function Weight(b: real, t: nat): real {
    if t == 0 then 0.0 else Mix(b, Weight(b, t - 1), 1.0)
  }

  lemma {:induction false} WeightIsCorrection(b: real, t: nat)
    ensures Weight(b, t) == 1.0 - Power(b, t)
  {
    if t > 0 {
      WeightIsCorrection(b, t - 1);
      assert (1.0 - Power(b, t - 1)) * b == b - Power(b, t - 1) * b;
    }
  }

  ghost predicate AllBetween(xs: seq<real>, lo: real, hi: real) {
    forall k | 0 <= k < |xs| :: lo <= xs[k] <= hi
  }

  /** a is w times something between lo and hi. */
  ghost predicate Weighted(w: real, a: real, lo: real, hi: real) {
    lo * w <= a <= hi * w
  }

  /** The average of t values is their total weight times something between any bounds on them. */
  lemma {:induction false} AverageBounds(b: real, xs: seq<real>, lo: real, hi: real)
    requires 0.0 <= b < 1.0 && AllBetween(xs, lo, hi)
    ensures Weighted(Weight(b, |xs|), Average(b, xs), lo, hi)
  {
    if xs != [] {
      var init, x := xs[..|xs| - 1], xs[|xs| - 1];
      AverageBounds(b, init, lo, hi);
      MixWeighted(b, Weight(b, |init|), Average(b, init), x, lo, hi);
    }
  }

  lemma MixWeighted(b: real, w: real, a: real, x: real, lo: real, hi: real)
    requires 0.0 <= b < 1.0 && lo <= x <= hi && Weighted(w, a, lo, hi)
    ensures Weighted(Mix(b, w, 1.0), Mix(b, a, x), lo, hi)
  {
    MixMonotone(b, lo * w, a, lo, x);
    MixMonotone(b, a, hi * w, x, hi);
    MixScales(b, w, lo);
    MixScales(b, w, hi);
  }

  lemma MixScales(b: real, w: real, c: real)
    ensures Mix(b, c * w, c) == c * Mix(b, w, 1.0)
  {
  }

  lemma MixMonotone(b: real, a: real, a': real, x: real, x': real)
    requires 0.0 <= b < 1.0 && a <= a' && x <= x'
    ensures Mix(b, a, x) <= Mix(b, a', x')
  {
    NonNegative(a' - a, b);
    assert (a' - a) * b == a' * b - a * b;
    NonNegative(x' - x, 1.0 - b);
    assert (x' - x) * (1.0 - b) == x' * (1.0 - b) - x * (1.0 - b);
  }

  /** The effective gradients of coordinate i along the run. */
  ghost function History(m: Math, c: Config, parameter: Tensor, steps: seq<TrainStep>, i: nat): (h: seq<real>)
    requires Fits(steps, |parameter|) && i < |parameter|
    ensures |h| == |steps|
  {
    if steps == [] then []
    else
      var before, last := steps[..|steps| - 1], steps[|steps| - 1];
      History(m, c, parameter, before, i)
      + [EffectiveGradient(c, TraceRun(m, c, parameter, before).parameter, last.gradient)[i]]
  }

  function Squares(xs: seq<real>): (r: seq<real>)
    ensures |r| == |xs|
  {
    seq(|xs|, k requires 0 <= k < |xs| => xs[k] * xs[k])
  }

  lemma SquaresInit(xs: seq<real>)
    requires xs != []
    ensures Squares(xs)[..|xs| - 1] == Squares(xs[..|xs| - 1])
  {
    var init := xs[..|xs| - 1];
    assert forall k | 0 <= k < |init| :: Squares(xs)[k] == Squares(init)[k];
  }

  /** The moments of coordinate i after one step with effective gradient g. */
  ghost predicate MomentsStep(c: Config, s: Looped, s': Looped, g: real, i: nat)
    requires s.Valid() && s'.Valid() && i < |s.parameter| == |s'.parameter|
  {
    && s'.beta1Pow[i] == Product(s.beta1Pow[i], c.beta1) && s'.beta2Pow[i] == Product(s.beta2Pow[i], c.beta2)
    && s'.mean[i] == Mix(c.beta1, s.mean[i], g) && s'.variance[i] == Mix(c.beta2, s.variance[i], Product(g, g))
  }

  function Product(a: real, b: real): real {
    a * b
  }

  lemma PowerAt(c: Config, power: Tensor, beta: real, i: nat)
    requires c.biasCorrection && i < |power|
    ensures TracePower(c, power, beta)[i] == Product(power[i], beta)
  {
  }

  lemma MeanAt(c: Config, mean: Tensor, g: Tensor, i: nat)
    requires i < |mean| == |g|
    ensures TraceMean(c, mean, g)[i] == Mix(c.beta1, mean[i], g[i])
  {
  }

  lemma VarianceAt(c: Config, variance: Tensor, g: Tensor, i: nat)
    requires i < |variance| == |g|
    ensures TraceVariance(c, variance, g)[i] == Mix(c.beta2, variance[i], Product(g[i], g[i]))
  {
  }

  lemma MomentsAt(m: Math, c: Config, s: Looped, gradient: Tensor, lr: Tensor, i: nat)
    requires c.biasCorrection && s.Valid() && |gradient| == |lr| == |s.parameter| && i < |s.parameter|
    ensures MomentsStep(c, s, TraceStep(m, c, s, gradient, lr), EffectiveGradient(c, s.parameter, gradient)[i], i)
  {
    var g := EffectiveGradient(c, s.parameter, gradient);
    MeanAt(c, s.mean, g, i);
    VarianceAt(c, s.variance, g, i);
    PowerAt(c, s.beta1Pow, c.beta1, i);
    PowerAt(c, s.beta2Pow, c.beta2, i);
  }

  function CorrectedRoot(m: Math, variance: real, pow2: real): real {
    m.sqrt(variance) * m.Inverse(m.sqrt(1.0 - pow2))
  }

  function CorrectedDirection(m: Math, c: Config, mean: real, root: real, pow1: real): real {
    (mean * m.Inverse(1.0 - pow1)) * m.Inverse(root + c.epsilon)
  }

  function Moved(c: Config, p: real, direction: real, lr: real): real {
    p - (if c.weightDecay > 0.0 && c.enableAdamW then direction + c.weightDecay * p else direction) * lr
  }

  /** The scalar form of the trace's bias-corrected parameter update. */
  function CorrectedParameter(m: Math, c: Config, mean: real, variance: real, pow1: real, pow2: real, p: real,
                              lr: real): real {
    Moved(c, p, CorrectedDirection(m, c, mean, CorrectedRoot(m, variance, pow2), pow1), lr)
  }

  lemma RootAt(m: Math, c: Config, variance: Tensor, pow2: Tensor, i: nat)
    requires c.biasCorrection && i < |variance| == |pow2|
    ensures TraceRoot(m, c, variance, pow2)[i] == CorrectedRoot(m, variance[i], pow2[i])
  {
  }

  lemma DirectionAt(m: Math, c: Config, mean: Tensor, root: Tensor, pow1: Tensor, i: nat)
    requires c.biasCorrection && i < |mean| == |root| == |pow1|
    ensures TraceDirection(m, c, mean, root, pow1)[i] == CorrectedDirection(m, c, mean[i], root[i], pow1[i])
  {
  }

  lemma MovedAt(c: Config, p: Tensor, direction: Tensor, lr: Tensor, i: nat)
    requires i < |p| == |direction| == |lr|
    ensures TraceParameter(c, p, direction, lr)[i] == Moved(c, p[i], direction[i], lr[i])
  {
  }

  lemma ParameterAt(m: Math, c: Config, s: Looped, gradient: Tensor, lr: Tensor, i: nat)
    requires c.biasCorrection && s.Valid() && |gradient| == |lr| == |s.parameter| && i < |s.parameter|
    ensures var s' := TraceStep(m, c, s, gradient, lr);
      s'.parameter[i] ==
      CorrectedParameter(m, c, s'.mean[i], s'.variance[i], s'.beta1Pow[i], s'.beta2Pow[i], s.parameter[i], lr[i])
  {
    var s' := TraceStep(m, c, s, gradient, lr);
    var root := TraceRoot(m, c, s'.variance, s'.beta2Pow);
    RootAt(m, c, s'.variance, s'.beta2Pow, i);
    DirectionAt(m, c, s'.mean, root, s'.beta1Pow, i);
    MovedAt(c, s.parameter, TraceDirection(m, c, s'.mean, root, s'.beta1Pow), lr, i);
  }

  /** After t steps the looped-back powers are beta^t, and mean and variance are the moving averages
      of the effective gradients and of their squares. */
  ghost predicate LoopedState(c: Config, s: Looped, h: seq<real>, i: nat)
    requires s.Valid() && i < |s.parameter|
  {
    && s.beta1Pow[i] == Power(c.beta1, |h|) && s.beta2Pow[i] == Power(c.beta2, |h|)
    && s.mean[i] == Average(c.beta1, h) && s.variance[i] == Average(c.beta2, Squares(h))
  }

  lemma LoopedStateStep(c: Config, s: Looped, s': Looped, h: seq<real>, g: real, i: nat)
    requires s.Valid() && s'.Valid() && i < |s.parameter| == |s'.parameter| && LoopedState(c, s, h, i)
    requires MomentsStep(c, s, s', g, i)
    ensures LoopedState(c, s', h + [g], i)
  {
    var h' := h + [g];
    assert h'[..|h|] == h;
    SquaresInit(h');
  }

  lemma {:induction false} RunLoopedState(m: Math, c: Config, parameter: Tensor, steps: seq<TrainStep>, i: nat)
    requires c.biasCorrection && Fits(steps, |parameter|) && i < |parameter|
    ensures LoopedState(c, TraceRun(m, c, parameter, steps), History(m, c, parameter, steps, i), i)
  {
    if steps != [] {
      var before, last := steps[..|steps| - 1], steps[|steps| - 1];
      var s, h := TraceRun(m, c, parameter, before), History(m, c, parameter, before, i);
      RunLoopedState(m, c, parameter, before, i);
      MomentsAt(m, c, s, last.gradient, Full(|parameter|, last.lr), i);
      LoopedStateStep(c, s, TraceRun(m, c, parameter, steps), h,
                      EffectiveGradient(c, s.parameter, last.gradient)[i], i);
    }
  }

  /** From the first step on both corrections divide by a positive number, and the corrected mean
      (variance) lies between any bounds on the effective gradients (on their squares). */
  lemma CorrectedMomentsBounded(m: Math, c: Config, parameter: Tensor, steps: seq<TrainStep>, i: nat,
                                lo: real, hi: real, lo2: real, hi2: real)
    requires c.Valid() && c.biasCorrection && Fits(steps, |parameter|) && i < |parameter| && steps != []
    requires AllBetween(History(m, c, parameter, steps, i), lo, hi)
    requires AllBetween(Squares(History(m, c, parameter, steps, i)), lo2, hi2)
    ensures var s := TraceRun(m, c, parameter, steps);
      && 1.0 - s.beta1Pow[i] == Correction(c.beta1, |steps|) && 1.0 - s.beta2Pow[i] == Correction(c.beta2, |steps|)
      && lo <= s.mean[i] / Correction(c.beta1, |steps|) <= hi
      && lo2 <= s.variance[i] / Correction(c.beta2, |steps|) <= hi2
  {
    var h := History(m, c, parameter, steps, i);
    RunLoopedState(m, c, parameter, steps, i);
    CorrectedAverage(c.beta1, h, lo, hi);
    CorrectedAverage(c.beta2, Squares(h), lo2, hi2);
  }

  lemma CorrectedAverage(b: real, xs: seq<real>, lo: real, hi: real)
    requires 0.0 <= b < 1.0 && xs != [] && AllBetween(xs, lo, hi)
    ensures lo <= Average(b, xs) / Correction(b, |xs|) <= hi
  {
    AverageBounds(b, xs, lo, hi);
    WeightIsCorrection(b, |xs|);
    QuotientBetween(Average(b, xs), Correction(b, |xs|), lo, hi);
  }

  lemma QuotientBetween(a: real, w: real, lo: real, hi: real)
    requires w > 0.0 && Weighted(w, a, lo, hi)
    ensures lo <= a / w <= hi
  {
    var q := a / w;
    assert q * w == a;
    if q < lo {
      ProductGrows(q, lo, w);
    }
    if hi < q {
      ProductGrows(hi, q, w);
    }
  }

  lemma ProductGrows(a: real, b: real, w: real)
    requires a < b && w > 0.0
    ensures a * w < b * w
  {
    assert (b - a) * w == b * w - a * w;
  }

  /** What bias-corrected Adam prescribes, given the corrected moments. */
  function Prescribed(m: Math, c: Config, mean: real, variance: real, p: real, lr: real): real
    requires m.sqrt(variance) + c.epsilon != 0.0
  {
    p - (mean / (m.sqrt(variance) + c.epsilon) + if c.enableAdamW then c.weightDecay * p else 0.0) * lr
  }

  /** The trace's product of a root and the reciprocal of a root is the root of the corrected variance. */
  lemma CorrectedScalar(m: Math, c: Config, mean: real, variance: real, pow1: real, pow2: real,
                        w1: real, w2: real, p: real, lr: real)
    requires m.Valid() && c.Valid() && variance >= 0.0 && w1 == 1.0 - pow1 > 0.0 && w2 == 1.0 - pow2 > 0.0
    ensures m.sqrt(variance / w2) + c.epsilon > 0.0
    ensures CorrectedParameter(m, c, mean, variance, pow1, pow2, p, lr)
         == Prescribed(m, c, mean / w1, variance / w2, p, lr)
  {
    SqrtOfQuotient(m, variance, w2);
    TimesInverse(m, m.sqrt(variance), m.sqrt(w2));
    TimesInverse(m, mean, w1);
    var d := m.sqrt(variance / w2) + c.epsilon;
    assert m.sqrt(variance / w2) >= 0.0;
    TimesInverse(m, mean / w1, d);
  }

  /** Every bias-corrected step of the trace is the step that the corrected moments prescribe. */
  lemma CorrectedUpdate(m: Math, c: Config, parameter: Tensor, steps: seq<TrainStep>, i: nat)
    requires m.Valid() && c.Valid() && c.biasCorrection && Fits(steps, |parameter|) && i < |parameter| && steps != []
    ensures var s, s' := TraceRun(m, c, parameter, steps[..|steps| - 1]), TraceRun(m, c, parameter, steps);
      var mean, variance := s'.mean[i] / Correction(c.beta1, |steps|), s'.variance[i] / Correction(c.beta2, |steps|);
      && m.sqrt(variance) + c.epsilon > 0.0
      && s'.parameter[i] == Prescribed(m, c, mean, variance, s.parameter[i], steps[|steps| - 1].lr)
  {
    var before, last := steps[..|steps| - 1], steps[|steps| - 1];
    var s, s' := TraceRun(m, c, parameter, before), TraceRun(m, c, parameter, steps);
    RunLoopedState(m, c, parameter, steps, i);
    ParameterAt(m, c, s, last.gradient, Full(|parameter|, last.lr), i);
    AverageOfSquares(c.beta2, History(m, c, parameter, steps, i));
    CorrectedScalar(m, c, s'.mean[i], s'.variance[i], s'.beta1Pow[i], s'.beta2Pow[i],
                    Correction(c.beta1, |steps|), Correction(c.beta2, |steps|), s.parameter[i], last.lr);
  }

  lemma {:induction false} AverageOfSquares(b: real, xs: seq<real>)
    requires 0.0 <= b < 1.0
    ensures Average(b, Squares(xs)) >= 0.0
  {
    if xs != [] {
      var init, x := xs[..|xs| - 1], xs[|xs| - 1];
      AverageOfSquares(b, init);
      SquaresInit(xs);
      NonNegative(Average(b, Squares(init)), b);
      SquareNonNegative(x);
      NonNegative(x * x, 1.0 - b);
    }
  }
}
