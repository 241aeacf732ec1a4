/** The in-place optimizer of torch_optimizers.py (amsgrad off), and that it tracks the op trace. */
module AdamInPlace {
  import opened Wrappers
  import opened Adam

  /** One parameter with the moments PyTorch keeps for it. */
  datatype Moments = Moments(parameter: real, mean: real, variance: real)

  lemma NonNegativeProduct(a: real, b: real)
    requires a >= 0.0 && b >= 0.0
    ensures Times(a, b) >= 0.0
  {
  }

  lemma SquareNonNegative(a: real)
    ensures Times(a, a) >= 0.0
  {
    if a >= 0.0 { NonNegativeProduct(a, a); } else { NonNegativeProduct(-a, -a); }
  }

  function EffectiveGradientOf(c: Config, parameter: real, gradient: real): real {
    if c.weightDecay != 0.0 && !c.enableAdamW then gradient + Times(c.weightDecay, parameter) else gradient
  }

  /** Exponential moving averages of the gradient and of its square. */
  function NewMean(c: Config, mean: real, grad: real): real {
    Times(mean, c.beta1) + Times(1.0 - c.beta1, grad)
  }

  function NewVariance(c: Config, variance: real, grad: real): (r: real)
    requires ValidConfig(c) && variance >= 0.0
    ensures r >= 0.0
  {
    SquareNonNegative(grad);
    NonNegativeProduct(variance, c.beta2);
    NonNegativeProduct(1.0 - c.beta2, Times(grad, grad));
    Times(variance, c.beta2) + Times(1.0 - c.beta2, Times(grad, grad))
  }

  /** Decoupled weight decay, applied to the parameter before the step. */
  function DecayedParameter(c: Config, parameter: real, lr: real): real {
    if c.weightDecay != 0.0 && c.enableAdamW then Times(parameter, 1.0 - Times(lr, c.weightDecay)) else parameter
  }

  function Denominator(sqrt: real -> real, c: Config, variance: real): (d: real)
    requires ValidConfig(c) && Root(sqrt) && variance >= 0.0
    ensures d > 0.0
  {
    assert sqrt(variance) >= 0.0;
    sqrt(variance) + c.epsilon
  }

  /** The update in the order the code performs it. */
  function InPlaceUpdate(sqrt: real -> real, c: Config, m: Moments, t: Tick): (r: Moments)
    requires ValidConfig(c) && Root(sqrt) && m.variance >= 0.0
    ensures r.variance >= 0.0
  {
    var grad := EffectiveGradientOf(c, m.parameter, t.gradient);
    var mean, variance := NewMean(c, m.mean, grad), NewVariance(c, m.variance, grad);
    var moved := DecayedParameter(c, m.parameter, t.lr) + Times(-t.lr, mean / Denominator(sqrt, c, variance));
    Moments(moved, mean, variance)
  }

  /** One update in full: moving averages of the gradient and of its square, and decay before or inside the step. */
  lemma UpdateInFull(sqrt: real -> real, c: Config, m: Moments, t: Tick)
    requires ValidConfig(c) && Root(sqrt) && m.variance >= 0.0
    ensures var r := InPlaceUpdate(sqrt, c, m, t);
            var g := if c.weightDecay == 0.0 || c.enableAdamW then t.gradient
                     else t.gradient + c.weightDecay * m.parameter;
            var start := if c.weightDecay == 0.0 || !c.enableAdamW then m.parameter
                         else m.parameter * (1.0 - t.lr * c.weightDecay);
            && r.mean == m.mean * c.beta1 + (1.0 - c.beta1) * g
            && r.variance == m.variance * c.beta2 + (1.0 - c.beta2) * (g * g)
            && sqrt(r.variance) + c.epsilon > 0.0
            && r.parameter == start - t.lr * (r.mean / (sqrt(r.variance) + c.epsilon))
  {
    var r := InPlaceUpdate(sqrt, c, m, t);
    assert sqrt(r.variance) >= 0.0;
    var x := r.mean / (sqrt(r.variance) + c.epsilon);
    assert Times(-t.lr, x) == -(t.lr * x);
  }

  class ParameterState {
    var parameter: real
    var initialized: bool
    var step: nat
    var expAvg: real
    var expAvgSq: real

    constructor (parameter: real)
      ensures Current() == Moments(parameter, 0.0, 0.0) && step == 0 && !initialized
    {
      this.parameter, initialized, step, expAvg, expAvgSq := parameter, false, 0, 0.0, 0.0;
    }

    /** State that has not been created yet counts as zero moments. */
    function Current(): Moments
      reads this
    {
      if initialized then Moments(parameter, expAvg, expAvgSq) else Moments(parameter, 0.0, 0.0)
    }

    /** The in-place arithmetic of both moving averages. */
    method UpdateMoments(c: Config, grad: real)
      requires ValidConfig(c) && expAvgSq >= 0.0
      modifies this`expAvg, this`expAvgSq
      ensures expAvg == NewMean(c, old(expAvg), grad) && expAvgSq == NewVariance(c, old(expAvgSq), grad)
    {
      expAvg := Times(expAvg, c.beta1);
      expAvg := expAvg + Times(1.0 - c.beta1, grad);
      expAvgSq := Times(expAvgSq, c.beta2);
      expAvgSq := expAvgSq + Times(1.0 - c.beta2, Times(grad, grad));
    }

    /** The in-place arithmetic for one parameter. */
    method Update(sqrt: real -> real, c: Config, t: Tick)
      requires ValidConfig(c) && Root(sqrt) && initialized && expAvgSq >= 0.0
      modifies this`parameter, this`expAvg, this`expAvgSq
      ensures Current() == InPlaceUpdate(sqrt, c, old(Current()), t) && expAvgSq >= 0.0
    {
      var grad := t.gradient;
      if c.weightDecay != 0.0 && c.enableAdamW {
        parameter := Times(parameter, 1.0 - Times(t.lr, c.weightDecay));
      } else if c.weightDecay != 0.0 {
        grad := grad + Times(c.weightDecay, parameter);
      }
      UpdateMoments(c, grad);
      var denom := Denominator(sqrt, c, expAvgSq);
      parameter := parameter + Times(-t.lr, expAvg / denom);
    }
  }

  class AdamNoBiasCorrection {
    const c: Config
    const params: seq<ParameterState>

    constructor (c: Config, params: seq<ParameterState>)
      ensures this.c == c && this.params == params
    {
      this.c, this.params := c, params;
    }

    ghost predicate Valid()
      reads this, params
    {
      && ValidConfig(c)
      && (forall i, j :: 0 <= i < j < |params| ==> params[i] != params[j])
      && (forall i :: 0 <= i < |params| ==> params[i].Current().variance >= 0.0)
    }

    /** Parameters without a gradient are left alone; the others get their state and one update. */
    method Step(sqrt: real -> real, lr: real, grads: seq<Option<real>>)
      requires Valid() && Root(sqrt) && |grads| == |params|
      modifies params
      ensures Valid()
      ensures forall i :: 0 <= i < |params| ==>
                if grads[i].None? then
                  params[i].Current() == old(params[i].Current()) && params[i].step == old(params[i].step)
                else
                  && params[i].Current() == InPlaceUpdate(sqrt, c, old(params[i].Current()), Tick(lr, grads[i].value))
                  && params[i].step == old(params[i].step) + 1
    {
      var withGrad := CollectState(grads);
      for i := 0 to |params|
        invariant forall j :: 0 <= j < |params| ==> params[j].Current().variance >= 0.0
        invariant forall j :: 0 <= j < |params| && grads[j].Some? ==> params[j].initialized
        invariant forall j :: 0 <= j < |params| ==>
                    params[j].step == old(params[j].step) + if grads[j].Some? then 1 else 0
        invariant forall j :: 0 <= j < |params| ==>
                    params[j].Current() ==
                    if j < i && grads[j].Some? then
                      InPlaceUpdate(sqrt, c, old(params[j].Current()), Tick(lr, grads[j].value))
                    else old(params[j].Current())
      {
        if withGrad[i] {
          params[i].Update(sqrt, c, Tick(lr, grads[i].value));
        }
      }
    }

    /** Creates missing state and counts the step, for every parameter that has a gradient. */
    method CollectState(grads: seq<Option<real>>) returns (withGrad: seq<bool>)
      requires Valid() && |grads| == |params|
      modifies params
      ensures |withGrad| == |params| && forall i :: 0 <= i < |params| ==> withGrad[i] == grads[i].Some?
      ensures forall i :: 0 <= i < |params| ==> params[i].Current() == old(params[i].Current())
      ensures forall i :: 0 <= i < |params| && grads[i].Some? ==> params[i].initialized
      ensures forall i :: 0 <= i < |params| ==>
                params[i].step == old(params[i].step) + if grads[i].Some? then 1 else 0
    {
      withGrad := [];
      for i := 0 to |params|
        invariant |withGrad| == i && forall j :: 0 <= j < i ==> withGrad[j] == grads[j].Some?
        invariant forall j :: 0 <= j < |params| ==> params[j].Current() == old(params[j].Current())
        invariant forall j :: 0 <= j < i && grads[j].Some? ==> params[j].initialized
        invariant forall j :: 0 <= j < |params| ==>
                    params[j].step == old(params[j].step) + if j < i && grads[j].Some? then 1 else 0
      {
        withGrad := withGrad + [grads[i].Some?];
        if grads[i].Some? {
          if !params[i].initialized {
            params[i].initialized, params[i].expAvg, params[i].expAvgSq := true, 0.0, 0.0;
          }
          params[i].step := params[i].step + 1;
        }
      }
    }
  }

  // ----- the two forms agree

  function InPlaceRun(sqrt: real -> real, c: Config, p0: real, ticks: seq<Tick>): (m: Moments)
    requires ValidConfig(c) && Root(sqrt)
    ensures m.variance >= 0.0
  {
    if ticks == [] then Moments(p0, 0.0, 0.0)
    else InPlaceUpdate(sqrt, c, InPlaceRun(sqrt, c, p0, ticks[..|ticks| - 1]), ticks[|ticks| - 1])
  }

  lemma TimesCommutes(x: real, y: real)
    ensures Times(x, y) == Times(y, x)
  {
  }

  /** Decaying the parameter first or adding the decay to the step is the same subtraction. */
  lemma DecoupledDecay(p: real, w: real, lr: real, x: real)
    ensures p - Times(x + Times(w, p), lr) == Times(p, 1.0 - Times(lr, w)) + Times(-lr, x)
  {
    var wp := w * p;
    assert (x + wp) * lr == x * lr + wp * lr;
    assert p * (1.0 - lr * w) == p - p * (lr * w);
    assert wp * lr == p * (lr * w);
  }

  lemma QuotientIsProduct(x: real, y: real)
    requires y != 0.0
    ensures Times(x, 1.0 / y) == x / y
  {
  }

  /** What the shared parts of the trace evaluate to. */
  lemma MomentsEvaluate(sqrt: real -> real, c: Config, s: State, t: Tick)
    requires ValidConfig(c) && s.variance >= 0.0
    ensures var env := Environment(s, t); var grad := EffectiveGradientOf(c, s.parameter, t.gradient);
            && Eval(sqrt, env, EffectiveGradient(c)) == Some(grad)
            && Eval(sqrt, env, UpdatedMean(c)) == Some(NewMean(c, s.mean, grad))
            && Eval(sqrt, env, UpdatedVariance(c)) == Some(NewVariance(c, s.variance, grad))
  {
    var env, grad := Environment(s, t), EffectiveGradientOf(c, s.parameter, t.gradient);
    assert Eval(sqrt, env, Multiply(Constant(c.weightDecay), Input(Parameter))) ==
           Some(Times(c.weightDecay, s.parameter));
    assert Eval(sqrt, env, EffectiveGradient(c)) == Some(grad);
    assert Eval(sqrt, env, Multiply(Input(Mean), Constant(c.beta1))) == Some(Times(s.mean, c.beta1));
    assert Eval(sqrt, env, Multiply(EffectiveGradient(c), Constant(1.0 - c.beta1))) == Some(Times(grad, 1.0 - c.beta1));
    TimesCommutes(grad, 1.0 - c.beta1);
    assert Eval(sqrt, env, Multiply(Input(Variance), Constant(c.beta2))) == Some(Times(s.variance, c.beta2));
    var square := Multiply(EffectiveGradient(c), EffectiveGradient(c));
    assert Eval(sqrt, env, square) == Some(Times(grad, grad));
    assert Eval(sqrt, env, Multiply(square, Constant(1.0 - c.beta2))) == Some(Times(Times(grad, grad), 1.0 - c.beta2));
    TimesCommutes(Times(grad, grad), 1.0 - c.beta2);
  }

  lemma NegatedTimes(x: real, y: real)
    ensures Times(-y, x) == -Times(x, y)
  {
  }

  /** The parameter subtraction, given the value of the scaled mean. */
  lemma ParameterEvaluates(sqrt: real -> real, c: Config, s: State, t: Tick, biasCorrection: bool, mean: real,
                           denom: real)
    requires ValidConfig(c) && denom != 0.0
    requires var env := Environment(s, t);
             && Eval(sqrt, env, UsedMean(c, biasCorrection)) == Some(mean)
             && Eval(sqrt, env, UsedRoot(c, biasCorrection)) == Some(denom - c.epsilon)
    ensures Eval(sqrt, Environment(s, t), GenerateOpTrace(c, biasCorrection).parameter) ==
            Some(DecayedParameter(c, s.parameter, t.lr) + Times(-t.lr, mean / denom))
  {
    var env := Environment(s, t);
    var recip := Reciprocal(Add(UsedRoot(c, biasCorrection), Constant(c.epsilon)));
    var scaled := Multiply(UsedMean(c, biasCorrection), recip);
    assert Eval(sqrt, env, Add(UsedRoot(c, biasCorrection), Constant(c.epsilon))) == Some(denom);
    assert Eval(sqrt, env, recip) == Some(1.0 / denom);
    assert Eval(sqrt, env, scaled) == Some(Times(mean, 1.0 / denom));
    QuotientIsProduct(mean, denom);
    var x := mean / denom;
    if c.weightDecay > 0.0 && c.enableAdamW {
      var decay := Multiply(Constant(c.weightDecay), Input(Parameter));
      assert Eval(sqrt, env, decay) == Some(Times(c.weightDecay, s.parameter));
      assert Eval(sqrt, env, Add(scaled, decay)) == Some(x + Times(c.weightDecay, s.parameter));
      assert Eval(sqrt, env, Multiply(Add(scaled, decay), Input(LearningRate))) ==
             Some(Times(x + Times(c.weightDecay, s.parameter), t.lr));
      DecoupledDecay(s.parameter, c.weightDecay, t.lr, x);
    } else {
      assert Eval(sqrt, env, Multiply(scaled, Input(LearningRate))) == Some(Times(x, t.lr));
      NegatedTimes(x, t.lr);
    }
  }

  lemma StepsAgree(sqrt: real -> real, c: Config, s: State, t: Tick)
    requires ValidConfig(c) && Root(sqrt) && s.variance >= 0.0
    ensures var m := InPlaceUpdate(sqrt, c, Moments(s.parameter, s.mean, s.variance), t);
            TraceStep(sqrt, c, false, s, t) == Some(State(m.parameter, m.mean, m.variance, s.beta1Pow, s.beta2Pow))
  {
    var env := Environment(s, t);
    var grad := EffectiveGradientOf(c, s.parameter, t.gradient);
    var variance := NewVariance(c, s.variance, grad);
    MomentsEvaluate(sqrt, c, s, t);
    assert Eval(sqrt, env, UsedRoot(c, false)) == Some(sqrt(variance));
    ParameterEvaluates(sqrt, c, s, t, false, NewMean(c, s.mean, grad), Denominator(sqrt, c, variance));
  }

  /**
   Over a run of any length and any gradients and learning rates, the op trace without bias
   correction and the in-place optimizer hold the same parameter, mean and variance.
   */
  lemma {:induction false} RunsAgree(sqrt: real -> real, c: Config, p0: real, ticks: seq<Tick>)
    requires ValidConfig(c) && Root(sqrt)
    ensures var m := InPlaceRun(sqrt, c, p0, ticks);
            TraceRun(sqrt, c, false, p0, ticks) == Some(State(m.parameter, m.mean, m.variance, 1.0, 1.0))
  {
    if ticks != [] {
      var before := ticks[..|ticks| - 1];
      RunsAgree(sqrt, c, p0, before);
      var m := InPlaceRun(sqrt, c, p0, before);
      StepsAgree(sqrt, c, State(m.parameter, m.mean, m.variance, 1.0, 1.0), ticks[|ticks| - 1]);
    }
  }

  /** Driving the optimizer object over a whole run ends where the trace ends. */
  method Train(sqrt: real -> real, c: Config, p0: real, ticks: seq<Tick>) returns (m: Moments)
    requires ValidConfig(c) && Root(sqrt)
    ensures TraceRun(sqrt, c, false, p0, ticks) == Some(State(m.parameter, m.mean, m.variance, 1.0, 1.0))
  {
    var p := new ParameterState(p0);
    var optimizer := new AdamNoBiasCorrection(c, [p]);
    for i := 0 to |ticks|
      invariant optimizer.Valid() && optimizer.params[0].Current() == InPlaceRun(sqrt, c, p0, ticks[..i])
    {
      assert ticks[..i + 1][..i] == ticks[..i];
      optimizer.Step(sqrt, ticks[i].lr, [Some(ticks[i].gradient)]);
    }
    assert ticks[..|ticks|] == ticks;
    m := p.Current();
    RunsAgree(sqrt, c, p0, ticks);
  }
}
