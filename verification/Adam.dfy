/**
 Adam twice: as the op trace that is compiled for the device, whose moments travel through loopback
 edges, and as the in-place PyTorch optimizer used to check it. Tensors are taken element by element,
 over the reals.
 */
module Adam {
  import opened Wrappers

  /** The constructor arguments both forms share. */
  datatype Config = Config(beta1: real, beta2: real, epsilon: real, weightDecay: real, enableAdamW: bool)

  ghost predicate ValidConfig(c: Config) {
    0.0 <= c.beta1 < 1.0 && 0.0 <= c.beta2 < 1.0 && 0.0 < c.epsilon && 0.0 <= c.weightDecay
  }

  ghost predicate Root(sqrt: real -> real) {
    forall x: real :: x >= 0.0 ==> sqrt(x) >= 0.0
  }

  // ----- the op trace

  /** The graph inputs of the optimizer, besides constants. */
  datatype Port = Parameter | Gradient | LearningRate | Mean | Variance | Beta1Pow | Beta2Pow

  datatype Expr =
    | Input(port: Port)
    | Constant(value: real)
    | Multiply(a: Expr, b: Expr)
    | Add(a: Expr, b: Expr)
    | Subtract(a: Expr, b: Expr)
    | Sqrt(a: Expr)
    | Reciprocal(a: Expr)

  /** The device tensors between two steps; the powers stay 1 without bias correction. */
  datatype State = State(parameter: real, mean: real, variance: real, beta1Pow: real, beta2Pow: real)

  datatype Tick = Tick(lr: real, gradient: real)

  datatype Environment = Environment(state: State, tick: Tick) {
    function At(port: Port): real {
      match port
      case Parameter => state.parameter
      case Gradient => tick.gradient
      case LearningRate => tick.lr
      case Mean => state.mean
      case Variance => state.variance
      case Beta1Pow => state.beta1Pow
      case Beta2Pow => state.beta2Pow
    }
  }

  function Times(x: real, y: real): real { x * y }

  /** Taking the reciprocal of zero has no value. */
  function Eval(sqrt: real -> real, env: Environment, e: Expr): Option<real> {
    match e
    case Input(port) => Some(env.At(port))
    case Constant(v) => Some(v)
    case Multiply(a, b) =>
      var x, y := Eval(sqrt, env, a), Eval(sqrt, env, b);
      if x.Some? && y.Some? then Some(Times(x.value, y.value)) else None
    case Add(a, b) =>
      var x, y := Eval(sqrt, env, a), Eval(sqrt, env, b);
      if x.Some? && y.Some? then Some(x.value + y.value) else None
    case Subtract(a, b) =>
      var x, y := Eval(sqrt, env, a), Eval(sqrt, env, b);
      if x.Some? && y.Some? then Some(x.value - y.value) else None
    case Sqrt(a) => var v := Eval(sqrt, env, a); if v.Some? then Some(sqrt(v.value)) else None
    case Reciprocal(a) =>
      var v := Eval(sqrt, env, a);
      if v.Some? && v.value != 0.0 then Some(1.0 / v.value) else None
  }

  /** The traced ops: the new parameter, and what is looped back into each state input. */
  datatype OpTrace = OpTrace(parameter: Expr, loopback: map<Port, Expr>)

  function EffectiveGradient(c: Config): Expr {
    if c.weightDecay > 0.0 && !c.enableAdamW then
      Add(Input(Gradient), Multiply(Constant(c.weightDecay), Input(Parameter)))
    else Input(Gradient)
  }

  function UpdatedMean(c: Config): Expr {
    Add(Multiply(Input(Mean), Constant(c.beta1)), Multiply(EffectiveGradient(c), Constant(1.0 - c.beta1)))
  }

  function UpdatedVariance(c: Config): Expr {
    Add(Multiply(Input(Variance), Constant(c.beta2)),
        Multiply(Multiply(EffectiveGradient(c), EffectiveGradient(c)), Constant(1.0 - c.beta2)))
  }

  function UpdatedPower(power: Port, beta: real): Expr { Multiply(Input(power), Constant(beta)) }

  function Correction(power: Port, beta: real): Expr { Subtract(Constant(1.0), UpdatedPower(power, beta)) }

  /** The first moment as it enters the update. */
  function UsedMean(c: Config, biasCorrection: bool): Expr {
    if biasCorrection then Multiply(UpdatedMean(c), Reciprocal(Correction(Beta1Pow, c.beta1))) else UpdatedMean(c)
  }

  function UsedRoot(c: Config, biasCorrection: bool): Expr {
    if biasCorrection then
      Multiply(Sqrt(UpdatedVariance(c)), Reciprocal(Sqrt(Correction(Beta2Pow, c.beta2))))
    else Sqrt(UpdatedVariance(c))
  }

  function GenerateOpTrace(c: Config, biasCorrection: bool): OpTrace {
    var denominator := Add(UsedRoot(c, biasCorrection), Constant(c.epsilon));
    var scaled := Multiply(UsedMean(c, biasCorrection), Reciprocal(denominator));
    var decayed :=
      if c.weightDecay > 0.0 && c.enableAdamW then Add(scaled, Multiply(Constant(c.weightDecay), Input(Parameter)))
      else scaled;
    var moments := map[Mean := UpdatedMean(c), Variance := UpdatedVariance(c)];
    OpTrace(
      Subtract(Input(Parameter), Multiply(decayed, Input(LearningRate))),
      if biasCorrection then
        moments[Beta1Pow := UpdatedPower(Beta1Pow, c.beta1)][Beta2Pow := UpdatedPower(Beta2Pow, c.beta2)]
      else moments)
  }

  // ----- running the trace

  function Initial(parameter: real): State { State(parameter, 0.0, 0.0, 1.0, 1.0) }

  function LoopBack(sqrt: real -> real, env: Environment, trace: OpTrace, name: Port, current: real): Option<real> {
    if name in trace.loopback then Eval(sqrt, env, trace.loopback[name]) else Some(current)
  }

  /** One step on the device: all ops read the old tensors, then the loopbacks replace the state. */
  function TraceStep(sqrt: real -> real, c: Config, biasCorrection: bool, s: State, t: Tick): Option<State> {
    var trace, env := GenerateOpTrace(c, biasCorrection), Environment.Environment(s, t);
    var p := Eval(sqrt, env, trace.parameter);
    var m := LoopBack(sqrt, env, trace, Mean, s.mean);
    var v := LoopBack(sqrt, env, trace, Variance, s.variance);
    var b1 := LoopBack(sqrt, env, trace, Beta1Pow, s.beta1Pow);
    var b2 := LoopBack(sqrt, env, trace, Beta2Pow, s.beta2Pow);
    if p.Some? && m.Some? && v.Some? && b1.Some? && b2.Some? then
      Some(State(p.value, m.value, v.value, b1.value, b2.value))
    else None
  }

  function TraceRun(sqrt: real -> real, c: Config, biasCorrection: bool, p0: real, ticks: seq<Tick>): Option<State> {
    if ticks == [] then Some(Initial(p0))
    else
      match TraceRun(sqrt, c, biasCorrection, p0, ticks[..|ticks| - 1])
      case None => None
      case Some(s) => TraceStep(sqrt, c, biasCorrection, s, ticks[|ticks| - 1])
  }
}
