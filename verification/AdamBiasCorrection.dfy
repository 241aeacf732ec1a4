/** Adam with bias correction: what the loopback state holds, and what the corrected mean means. */
module AdamBiasCorrection {
  import opened Wrappers
  import opened Adam
  import opened AdamInPlace

  /** The square root is positive on positive numbers. */
  ghost predicate PositiveRoot(sqrt: real -> real) {
    Root(sqrt) && forall x: real :: x > 0.0 ==> sqrt(x) > 0.0
  }

  function Power(b: real, k: nat): real {
    if k == 0 then 1.0 else Times(Power(b, k - 1), b)
  }

  lemma ShrinkingProduct(p: real, b: real)
    requires 0.0 <= p <= 1.0 && 0.0 <= b < 1.0
    ensures 0.0 <= Times(p, b) <= b
    ensures p > 0.0 && b > 0.0 ==> Times(p, b) > 0.0
  {
    NonNegativeProduct(p, b);
    NonNegativeProduct(1.0 - p, b);
  }

  lemma {:induction false} PowerBounds(b: real, k: nat)
    requires 0.0 <= b < 1.0
    ensures 0.0 <= Power(b, k) <= 1.0
    ensures k > 0 ==> Power(b, k) < 1.0
    ensures b > 0.0 ==> Power(b, k) > 0.0
  {
    if k > 0 {
      PowerBounds(b, k - 1);
      ShrinkingProduct(Power(b, k - 1), b);
    }
  }

  // ----- one step

  function GradientAt(c: Config, s: State, t: Tick): real { EffectiveGradientOf(c, s.parameter, t.gradient) }

  /** A state in which the next corrected step is defined. */
  ghost predicate Correctable(c: Config, s: State) {
    ValidConfig(c) && s.variance >= 0.0 && 0.0 <= s.beta1Pow <= 1.0 && 0.0 <= s.beta2Pow <= 1.0
  }

  /** The mean divided by one minus the power: what a step uses, read off the state after it. */
  function CorrectedMean(s: State): real
    requires s.beta1Pow < 1.0
  {
    s.mean / (1.0 - s.beta1Pow)
  }

  function CorrectedDenominator(sqrt: real -> real, c: Config, s: State): (d: real)
    requires PositiveRoot(sqrt) && ValidConfig(c) && s.variance >= 0.0 && s.beta2Pow < 1.0
    ensures d > 0.0
  {
    assert sqrt(1.0 - s.beta2Pow) > 0.0 && sqrt(s.variance) >= 0.0;
    NonNegativeProduct(sqrt(s.variance), 1.0 / sqrt(1.0 - s.beta2Pow));
    Times(sqrt(s.variance), 1.0 / sqrt(1.0 - s.beta2Pow)) + c.epsilon
  }

  /** The moments and powers after a step, before the parameter moves. */
  function Advanced(c: Config, s: State, t: Tick): (r: State)
    requires Correctable(c, s)
    ensures Correctable(c, r) && r.beta1Pow < 1.0 && r.beta2Pow < 1.0
  {
    ShrinkingProduct(s.beta1Pow, c.beta1);
    ShrinkingProduct(s.beta2Pow, c.beta2);
    State(s.parameter, NewMean(c, s.mean, GradientAt(c, s, t)), NewVariance(c, s.variance, GradientAt(c, s, t)),
          Times(s.beta1Pow, c.beta1), Times(s.beta2Pow, c.beta2))
  }

  function CorrectedNext(sqrt: real -> real, c: Config, s: State, t: Tick): (r: State)
    requires Correctable(c, s) && PositiveRoot(sqrt)
    ensures Correctable(c, r) && r.beta1Pow < 1.0
  {
    var a := Advanced(c, s, t);
    a.(parameter := DecayedParameter(c, s.parameter, t.lr) +
                    Times(-t.lr, CorrectedMean(a) / CorrectedDenominator(sqrt, c, a)))
  }

  /** The moments and the powers that a corrected step leaves, in full. */
  lemma MomentsInFull(sqrt: real -> real, c: Config, s: State, t: Tick)
    requires Correctable(c, s) && PositiveRoot(sqrt)
    ensures var r := CorrectedNext(sqrt, c, s, t);
            var g := if c.weightDecay == 0.0 || c.enableAdamW then t.gradient
                     else t.gradient + c.weightDecay * s.parameter;
            && r.beta1Pow == s.beta1Pow * c.beta1 && r.beta2Pow == s.beta2Pow * c.beta2
            && r.mean == s.mean * c.beta1 + (1.0 - c.beta1) * g
            && r.variance == s.variance * c.beta2 + (1.0 - c.beta2) * (g * g)
  {
  }

  /** How the parameter moves: the mean and the root are divided by one minus the power and by its root. */
  lemma ParameterInFull(sqrt: real -> real, c: Config, s: State, t: Tick)
    requires Correctable(c, s) && PositiveRoot(sqrt)
    ensures var r := CorrectedNext(sqrt, c, s, t);
            var start := if c.weightDecay == 0.0 || !c.enableAdamW then s.parameter
                         else Times(s.parameter, 1.0 - Times(t.lr, c.weightDecay));
            && r.beta1Pow < 1.0 && r.beta2Pow < 1.0 && sqrt(1.0 - r.beta2Pow) > 0.0
            && var root := Times(sqrt(r.variance), 1.0 / sqrt(1.0 - r.beta2Pow)) + c.epsilon;
               root > 0.0 && r.parameter == start + Times(-t.lr, r.mean / (1.0 - r.beta1Pow) / root)
  {
    var a := Advanced(c, s, t);
    assert CorrectedDenominator(sqrt, c, a) > 0.0 && sqrt(1.0 - a.beta2Pow) > 0.0;
  }

  lemma PowersEvaluate(sqrt: real -> real, c: Config, s: State, t: Tick)
    requires Correctable(c, s)
    ensures var env, a := Environment(s, t), Advanced(c, s, t);
            && Eval(sqrt, env, UpdatedPower(Beta1Pow, c.beta1)) == Some(a.beta1Pow)
            && Eval(sqrt, env, UpdatedPower(Beta2Pow, c.beta2)) == Some(a.beta2Pow)
  {
  }

  lemma StepAssembled(sqrt: real -> real, c: Config, s: State, t: Tick, r: State)
    requires var env := Environment(s, t);
             && Eval(sqrt, env, GenerateOpTrace(c, true).parameter) == Some(r.parameter)
             && Eval(sqrt, env, UpdatedMean(c)) == Some(r.mean)
             && Eval(sqrt, env, UpdatedVariance(c)) == Some(r.variance)
             && Eval(sqrt, env, UpdatedPower(Beta1Pow, c.beta1)) == Some(r.beta1Pow)
             && Eval(sqrt, env, UpdatedPower(Beta2Pow, c.beta2)) == Some(r.beta2Pow)
    ensures TraceStep(sqrt, c, true, s, t) == Some(r)
  {
  }

  lemma UsedMeanEvaluates(sqrt: real -> real, c: Config, env: Environment, mean: real, b1: real)
    requires Eval(sqrt, env, UpdatedMean(c)) == Some(mean)
    requires Eval(sqrt, env, UpdatedPower(Beta1Pow, c.beta1)) == Some(b1) && b1 < 1.0
    ensures Eval(sqrt, env, UsedMean(c, true)) == Some(mean / (1.0 - b1))
  {
    assert Eval(sqrt, env, Correction(Beta1Pow, c.beta1)) == Some(1.0 - b1);
    assert Eval(sqrt, env, Reciprocal(Correction(Beta1Pow, c.beta1))) == Some(1.0 / (1.0 - b1));
    QuotientIsProduct(mean, 1.0 - b1);
  }

  lemma UsedRootEvaluates(sqrt: real -> real, c: Config, env: Environment, variance: real, b2: real)
    requires PositiveRoot(sqrt) && Eval(sqrt, env, UpdatedVariance(c)) == Some(variance)
    requires Eval(sqrt, env, UpdatedPower(Beta2Pow, c.beta2)) == Some(b2) && b2 < 1.0
    ensures sqrt(1.0 - b2) > 0.0
    ensures Eval(sqrt, env, UsedRoot(c, true)) == Some(Times(sqrt(variance), 1.0 / sqrt(1.0 - b2)))
  {
    assert sqrt(1.0 - b2) > 0.0;
    assert Eval(sqrt, env, Correction(Beta2Pow, c.beta2)) == Some(1.0 - b2);
    assert Eval(sqrt, env, Sqrt(Correction(Beta2Pow, c.beta2))) == Some(sqrt(1.0 - b2));
    assert Eval(sqrt, env, Reciprocal(Sqrt(Correction(Beta2Pow, c.beta2)))) == Some(1.0 / sqrt(1.0 - b2));
    assert Eval(sqrt, env, Sqrt(UpdatedVariance(c))) == Some(sqrt(variance));
  }

  /** The trace is defined, multiplies the powers, and divides by one minus them. */
  lemma CorrectedStep(sqrt: real -> real, c: Config, s: State, t: Tick)
    requires Correctable(c, s) && PositiveRoot(sqrt)
    ensures TraceStep(sqrt, c, true, s, t) == Some(CorrectedNext(sqrt, c, s, t))
    ensures Eval(sqrt, Environment(s, t), UsedMean(c, true)) == Some(CorrectedMean(CorrectedNext(sqrt, c, s, t)))
  {
    var env, a := Environment(s, t), Advanced(c, s, t);
    MomentsEvaluate(sqrt, c, s, t);
    PowersEvaluate(sqrt, c, s, t);
    UsedMeanEvaluates(sqrt, c, env, a.mean, a.beta1Pow);
    UsedRootEvaluates(sqrt, c, env, a.variance, a.beta2Pow);
    ParameterEvaluates(sqrt, c, s, t, true, CorrectedMean(a), CorrectedDenominator(sqrt, c, a));
    StepAssembled(sqrt, c, s, t, CorrectedNext(sqrt, c, s, t));
  }

  // ----- whole runs

  function CorrectedRun(sqrt: real -> real, c: Config, p0: real, ticks: seq<Tick>): (s: State)
    requires ValidConfig(c) && PositiveRoot(sqrt)
    ensures Correctable(c, s) && (ticks != [] ==> s.beta1Pow < 1.0)
  {
    if ticks == [] then Initial(p0)
    else CorrectedNext(sqrt, c, CorrectedRun(sqrt, c, p0, ticks[..|ticks| - 1]), ticks[|ticks| - 1])
  }

  /** The trace is defined at every step of every run. */
  lemma {:induction false} TraceIsCorrectedRun(sqrt: real -> real, c: Config, p0: real, ticks: seq<Tick>)
    requires ValidConfig(c) && PositiveRoot(sqrt)
    ensures TraceRun(sqrt, c, true, p0, ticks) == Some(CorrectedRun(sqrt, c, p0, ticks))
  {
    if ticks != [] {
      var before := ticks[..|ticks| - 1];
      TraceIsCorrectedRun(sqrt, c, p0, before);
      CorrectedStep(sqrt, c, CorrectedRun(sqrt, c, p0, before), ticks[|ticks| - 1]);
    }
  }

  lemma StepPowers(sqrt: real -> real, c: Config, s: State, t: Tick)
    requires Correctable(c, s) && PositiveRoot(sqrt)
    ensures var r := CorrectedNext(sqrt, c, s, t);
            && r.mean == NewMean(c, s.mean, GradientAt(c, s, t))
            && r.beta1Pow == Times(s.beta1Pow, c.beta1) && r.beta2Pow == Times(s.beta2Pow, c.beta2)
  {
  }

  /** After k steps the loopback state holds the k-th powers of the two rates. */
  lemma {:induction false} PowersAfterRun(sqrt: real -> real, c: Config, p0: real, ticks: seq<Tick>)
    requires ValidConfig(c) && PositiveRoot(sqrt)
    ensures var s := CorrectedRun(sqrt, c, p0, ticks);
            s.beta1Pow == Power(c.beta1, |ticks|) && s.beta2Pow == Power(c.beta2, |ticks|)
  {
    if ticks != [] {
      var before := ticks[..|ticks| - 1];
      PowersAfterRun(sqrt, c, p0, before);
      StepPowers(sqrt, c, CorrectedRun(sqrt, c, p0, before), ticks[|ticks| - 1]);
    }
  }

  /** The gradients that entered the mean: with L2 decay they include the decayed parameter. */
  function GradientsSeen(sqrt: real -> real, c: Config, p0: real, ticks: seq<Tick>): (gs: seq<real>)
    requires ValidConfig(c) && PositiveRoot(sqrt)
    ensures |gs| == |ticks|
  {
    if ticks == [] then []
    else
      var before := ticks[..|ticks| - 1];
      GradientsSeen(sqrt, c, p0, before) + [GradientAt(c, CorrectedRun(sqrt, c, p0, before), ticks[|ticks| - 1])]
  }

  // ----- the mean as a weighted average of the gradients seen

  /** An exponential moving average started at zero. */
  function MovingAverage(b: real, gs: seq<real>): real {
    if gs == [] then 0.0 else Times(MovingAverage(b, gs[..|gs| - 1]), b) + Times(1.0 - b, gs[|gs| - 1])
  }

  lemma AverageSnoc(b: real, gs: seq<real>, g: real)
    ensures MovingAverage(b, gs + [g]) == Times(MovingAverage(b, gs), b) + Times(1.0 - b, g)
  {
    assert (gs + [g])[..|gs|] == gs;
  }

  lemma {:induction false} MeanIsMovingAverage(sqrt: real -> real, c: Config, p0: real, ticks: seq<Tick>)
    requires ValidConfig(c) && PositiveRoot(sqrt)
    ensures CorrectedRun(sqrt, c, p0, ticks).mean == MovingAverage(c.beta1, GradientsSeen(sqrt, c, p0, ticks))
  {
    if ticks != [] {
      var before, t := ticks[..|ticks| - 1], ticks[|ticks| - 1];
      MeanIsMovingAverage(sqrt, c, p0, before);
      var s := CorrectedRun(sqrt, c, p0, before);
      StepPowers(sqrt, c, s, t);
      var seen := GradientsSeen(sqrt, c, p0, before);
      AverageSnoc(c.beta1, seen, GradientAt(c, s, t));
    }
  }

  ghost predicate AllEqual(gs: seq<real>, g: real) {
    forall i :: 0 <= i < |gs| ==> gs[i] == g
  }

  /** Averaging in one more value at or above `lo`; with positive weights equality needs equality. */
  lemma WeightedAbove(b: real, mean: real, power: real, g: real, lo: real)
    requires 0.0 <= b < 1.0 && mean >= Times(lo, 1.0 - power) && g >= lo
    ensures Times(mean, b) + Times(1.0 - b, g) >= Times(lo, 1.0 - Times(power, b))
    ensures b > 0.0 ==> (Times(mean, b) + Times(1.0 - b, g) == Times(lo, 1.0 - Times(power, b)) <==>
                         mean == Times(lo, 1.0 - power) && g == lo)
  {
    var x, y := mean - lo * (1.0 - power), g - lo;
    NonNegativeProduct(x, b);
    NonNegativeProduct(1.0 - b, y);
    assert Times(mean, b) + Times(1.0 - b, g) - Times(lo, 1.0 - Times(power, b)) == x * b + (1.0 - b) * y by {
      assert (lo * (1.0 - power)) * b == lo * b - lo * (power * b);
      assert (1.0 - b) * (g - lo) == (1.0 - b) * g - (lo - b * lo);
    }
    if b > 0.0 && x > 0.0 { assert x * b > 0.0; }
    if y > 0.0 { assert (1.0 - b) * y > 0.0; }
  }

  /** The weights of k gradients add up to one minus the power. */
  lemma {:induction false} AverageAbove(b: real, gs: seq<real>, lo: real)
    requires 0.0 <= b < 1.0 && forall i :: 0 <= i < |gs| ==> lo <= gs[i]
    ensures MovingAverage(b, gs) >= Times(lo, 1.0 - Power(b, |gs|))
    ensures b > 0.0 ==> (MovingAverage(b, gs) == Times(lo, 1.0 - Power(b, |gs|)) <==> AllEqual(gs, lo))
  {
    if gs == [] {
      assert Times(lo, 0.0) == 0.0;
    } else {
      var before := gs[..|gs| - 1];
      AverageAbove(b, before, lo);
      WeightedAbove(b, MovingAverage(b, before), Power(b, |before|), gs[|gs| - 1], lo);
      assert gs == before + [gs[|gs| - 1]];
      assert AllEqual(gs, lo) <==> AllEqual(before, lo) && gs[|gs| - 1] == lo;
    }
  }

  function Negated(gs: seq<real>): (r: seq<real>)
    ensures |r| == |gs| && forall i :: 0 <= i < |gs| ==> r[i] == -gs[i]
  {
    seq(|gs|, i requires 0 <= i < |gs| => -gs[i])
  }

  lemma {:induction false} AverageNegates(b: real, gs: seq<real>)
    ensures MovingAverage(b, Negated(gs)) == -MovingAverage(b, gs)
  {
    if gs != [] {
      var before := gs[..|gs| - 1];
      AverageNegates(b, before);
      assert Negated(gs)[..|gs| - 1] == Negated(before);
      NegatedTimes(b, MovingAverage(b, before));
      TimesCommutes(gs[|gs| - 1], 1.0 - b);
      NegatedTimes(1.0 - b, gs[|gs| - 1]);
      TimesCommutes(-gs[|gs| - 1], 1.0 - b);
    }
  }

  lemma DivideBounds(x: real, d: real, v: real)
    requires d > 0.0
    ensures x >= Times(v, d) <==> x / d >= v
    ensures x <= Times(v, d) <==> x / d <= v
  {
    assert x == (x / d) * d;
    var q := x / d;
    if q > v { assert (q - v) * d > 0.0; }
    if q < v { assert (v - q) * d > 0.0; }
  }

  /** The corrected mean of a list of gradients. */
  function CorrectedAverage(b: real, gs: seq<real>): real
    requires Power(b, |gs|) < 1.0
  {
    MovingAverage(b, gs) / (1.0 - Power(b, |gs|))
  }

  lemma AverageAtLeast(b: real, gs: seq<real>, lo: real)
    requires 0.0 <= b < 1.0 && gs != [] && forall i :: 0 <= i < |gs| ==> lo <= gs[i]
    ensures Power(b, |gs|) < 1.0 && lo <= CorrectedAverage(b, gs)
    ensures b > 0.0 ==> (CorrectedAverage(b, gs) == lo <==> AllEqual(gs, lo))
  {
    PowerBounds(b, |gs|);
    AverageAbove(b, gs, lo);
    DivideBounds(MovingAverage(b, gs), 1.0 - Power(b, |gs|), lo);
  }

  lemma NegatedEqual(gs: seq<real>, v: real)
    ensures |Negated(gs)| == |gs| && (AllEqual(Negated(gs), -v) <==> AllEqual(gs, v))
  {
    assert forall i :: 0 <= i < |gs| ==> (Negated(gs)[i] == -v <==> gs[i] == v);
  }

  lemma NegatedProduct(x: real, y: real)
    ensures Times(-x, y) == -Times(x, y)
  {
  }

  /** The mirror image of `AverageAbove`. */
  lemma AverageBelow(b: real, gs: seq<real>, hi: real)
    requires 0.0 <= b < 1.0 && forall i :: 0 <= i < |gs| ==> gs[i] <= hi
    ensures MovingAverage(b, gs) <= Times(hi, 1.0 - Power(b, |gs|))
    ensures b > 0.0 ==> (MovingAverage(b, gs) == Times(hi, 1.0 - Power(b, |gs|)) <==> AllEqual(gs, hi))
  {
    AverageAbove(b, Negated(gs), -hi);
    AverageNegates(b, gs);
    NegatedEqual(gs, hi);
    NegatedProduct(hi, 1.0 - Power(b, |gs|));
  }

  lemma AverageAtMost(b: real, gs: seq<real>, hi: real)
    requires 0.0 <= b < 1.0 && gs != [] && forall i :: 0 <= i < |gs| ==> gs[i] <= hi
    ensures Power(b, |gs|) < 1.0 && CorrectedAverage(b, gs) <= hi
    ensures b > 0.0 ==> (CorrectedAverage(b, gs) == hi <==> AllEqual(gs, hi))
  {
    PowerBounds(b, |gs|);
    AverageBelow(b, gs, hi);
    DivideBounds(MovingAverage(b, gs), 1.0 - Power(b, |gs|), hi);
  }

  lemma MeanIsCorrected(s: State, b: real, gs: seq<real>)
    requires s.mean == MovingAverage(b, gs) && s.beta1Pow == Power(b, |gs|) < 1.0
    ensures CorrectedMean(s) == CorrectedAverage(b, gs)
  {
  }

  lemma CorrectedMeanIsAverage(sqrt: real -> real, c: Config, p0: real, ticks: seq<Tick>)
    requires ValidConfig(c) && PositiveRoot(sqrt) && ticks != []
    ensures var s, gs := CorrectedRun(sqrt, c, p0, ticks), GradientsSeen(sqrt, c, p0, ticks);
            && |gs| == |ticks| && Power(c.beta1, |gs|) < 1.0
            && CorrectedMean(s) == CorrectedAverage(c.beta1, gs)
  {
    PowerBounds(c.beta1, |ticks|);
    PowersAfterRun(sqrt, c, p0, ticks);
    MeanIsMovingAverage(sqrt, c, p0, ticks);
    MeanIsCorrected(CorrectedRun(sqrt, c, p0, ticks), c.beta1, GradientsSeen(sqrt, c, p0, ticks));
  }

  /**
   After any run of at least one step, the corrected mean lies between every lower and every upper
   bound of the effective gradients seen. When beta1 is positive it touches a bound only if all of
   those gradients equal it.
   */
  lemma CorrectedMeanBounded(sqrt: real -> real, c: Config, p0: real, ticks: seq<Tick>, lo: real, hi: real)
    requires ValidConfig(c) && PositiveRoot(sqrt) && ticks != []
    requires forall i :: 0 <= i < |ticks| ==> lo <= GradientsSeen(sqrt, c, p0, ticks)[i] <= hi
    ensures var s := CorrectedRun(sqrt, c, p0, ticks);
            && TraceRun(sqrt, c, true, p0, ticks) == Some(s)
            && lo <= CorrectedMean(s) <= hi
            && (c.beta1 > 0.0 ==> (CorrectedMean(s) == lo <==> AllEqual(GradientsSeen(sqrt, c, p0, ticks), lo)))
            && (c.beta1 > 0.0 ==> (CorrectedMean(s) == hi <==> AllEqual(GradientsSeen(sqrt, c, p0, ticks), hi)))
  {
    TraceIsCorrectedRun(sqrt, c, p0, ticks);
    CorrectedMeanIsAverage(sqrt, c, p0, ticks);
    AverageAtLeast(c.beta1, GradientsSeen(sqrt, c, p0, ticks), lo);
    AverageAtMost(c.beta1, GradientsSeen(sqrt, c, p0, ticks), hi);
  }

  /** When beta1 is zero only the last gradient counts. */
  lemma WithoutMemoryMeanIsLast(sqrt: real -> real, c: Config, p0: real, ticks: seq<Tick>)
    requires ValidConfig(c) && PositiveRoot(sqrt) && ticks != [] && c.beta1 == 0.0
    ensures CorrectedMean(CorrectedRun(sqrt, c, p0, ticks)) == GradientsSeen(sqrt, c, p0, ticks)[|ticks| - 1]
  {
    CorrectedMeanIsAverage(sqrt, c, p0, ticks);
    var gs := GradientsSeen(sqrt, c, p0, ticks);
    assert Times(MovingAverage(0.0, gs[..|gs| - 1]), 0.0) == 0.0 && Times(1.0, gs[|gs| - 1]) == gs[|gs| - 1];
    assert Times(Power(0.0, |gs| - 1), 0.0) == 0.0;
  }

  /** "It equals g exactly when all gradients equal g" holds for every g exactly when the gradients are constant. */
  lemma EqualityCharacterizesConstantGradients(sqrt: real -> real, c: Config, p0: real, ticks: seq<Tick>)
    requires ValidConfig(c) && PositiveRoot(sqrt) && ticks != []
    ensures var mean, gs := CorrectedMean(CorrectedRun(sqrt, c, p0, ticks)), GradientsSeen(sqrt, c, p0, ticks);
            (forall g :: mean == g <==> AllEqual(gs, g)) <==> (forall i :: 0 <= i < |gs| ==> gs[i] == gs[0])
  {
    var mean, gs := CorrectedMean(CorrectedRun(sqrt, c, p0, ticks)), GradientsSeen(sqrt, c, p0, ticks);
    if forall i :: 0 <= i < |gs| ==> gs[i] == gs[0] {
      CorrectedMeanBounded(sqrt, c, p0, ticks, gs[0], gs[0]);
      assert forall g :: AllEqual(gs, g) <==> gs[0] == g;
    }
    if forall g :: mean == g <==> AllEqual(gs, g) {
      assert AllEqual(gs, mean);
    }
  }

  /** Strictly between the bounds equality says nothing: the gradients 0 and 3 have the corrected mean 2. */
  lemma MixedGradientsCanAverage(sqrt: real -> real, c: Config, p0: real, lr: real)
    requires ValidConfig(c) && PositiveRoot(sqrt) && c.beta1 == 0.5 && c.weightDecay == 0.0
    ensures var ticks := [Tick(lr, 0.0), Tick(lr, 3.0)];
            GradientsSeen(sqrt, c, p0, ticks) == [0.0, 3.0] && CorrectedMean(CorrectedRun(sqrt, c, p0, ticks)) == 2.0
  {
    var ticks := [Tick(lr, 0.0), Tick(lr, 3.0)];
    assert ticks[..1] == [Tick(lr, 0.0)] && ticks[..1][..0] == [];
    assert GradientsSeen(sqrt, c, p0, ticks[..1]) == [0.0];
    MeanIsMovingAverage(sqrt, c, p0, ticks);
    PowersAfterRun(sqrt, c, p0, ticks);
    AverageSnoc(0.5, [], 0.0);
    AverageSnoc(0.5, [0.0], 3.0);
    assert [] + [0.0] == [0.0] && [0.0] + [3.0] == [0.0, 3.0];
    assert MovingAverage(0.5, [0.0, 3.0]) == 1.5;
    assert Power(0.5, 1) == 0.5 && Power(0.5, 2) == 0.25;
  }

  // ----- the first step against torch_parameter_update

  /** A square root that distributes over products. */
  ghost predicate ProductRoot(sqrt: real -> real) {
    && PositiveRoot(sqrt) && sqrt(1.0) == 1.0
    && forall x: real, y: real :: x >= 0.0 && y >= 0.0 ==> sqrt(Times(x, y)) == Times(sqrt(x), sqrt(y))
  }

  lemma QuotientNonNegative(x: real, y: real)
    requires x >= 0.0 && y > 0.0
    ensures x / y >= 0.0
  {
  }

  /** The host-side reference, from zero moments. */
  function TorchParameterUpdate(sqrt: real -> real, c: Config, biasCorrection: bool, p: real, t: Tick): real
    requires ValidConfig(c) && PositiveRoot(sqrt)
  {
    var grad := if !c.enableAdamW && c.weightDecay > 0.0 then t.gradient + Times(c.weightDecay, p) else t.gradient;
    var mean0, variance0 := NewMean(c, 0.0, grad), NewVariance(c, 0.0, grad);
    var mean := if biasCorrection then mean0 / (1.0 - c.beta1) else mean0;
    var variance := if biasCorrection then variance0 / (1.0 - c.beta2) else variance0;
    QuotientNonNegative(variance0, 1.0 - c.beta2);
    p - Times(t.lr, mean / Denominator(sqrt, c, variance) +
                    if c.enableAdamW && c.weightDecay > 0.0 then Times(c.weightDecay, p) else 0.0)
  }

  lemma QuotientTimes(x: real, y: real)
    requires y != 0.0
    ensures Times(x / y, y) == x
  {
  }

  lemma CancelQuotient(a: real, r: real)
    requires r > 0.0
    ensures Times(Times(a, r), 1.0 / r) == a
  {
    assert r * (1.0 / r) == 1.0;
    assert a * r * (1.0 / r) == a * (r * (1.0 / r));
  }

  lemma RootOfQuotient(sqrt: real -> real, x: real, y: real)
    requires ProductRoot(sqrt) && x >= 0.0 && y > 0.0
    ensures sqrt(y) > 0.0 && Times(sqrt(x), 1.0 / sqrt(y)) == sqrt(x / y)
  {
    var q := x / y;
    QuotientNonNegative(x, y);
    QuotientTimes(x, y);
    assert sqrt(Times(q, y)) == Times(sqrt(q), sqrt(y));
    CancelQuotient(sqrt(q), sqrt(y));
  }

  lemma FirstDenominator(sqrt: real -> real, c: Config, s: State, t: Tick)
    requires ValidConfig(c) && ProductRoot(sqrt)
    requires s.variance == 0.0 && s.beta1Pow == s.beta2Pow == 1.0
    ensures var a, variance := Advanced(c, s, t), NewVariance(c, 0.0, GradientAt(c, s, t)) / (1.0 - c.beta2);
            && variance >= 0.0 && a.beta1Pow == c.beta1 && a.beta2Pow == c.beta2
            && CorrectedDenominator(sqrt, c, a) == Denominator(sqrt, c, variance)
  {
    var variance0 := NewVariance(c, 0.0, GradientAt(c, s, t));
    assert Times(1.0, c.beta1) == c.beta1 && Times(1.0, c.beta2) == c.beta2;
    RootOfQuotient(sqrt, variance0, 1.0 - c.beta2);
    QuotientNonNegative(variance0, 1.0 - c.beta2);
  }

  lemma LastSubtraction(c: Config, p: real, lr: real, x: real)
    requires ValidConfig(c)
    ensures DecayedParameter(c, p, lr) + Times(-lr, x) ==
            p - Times(lr, x + if c.enableAdamW && c.weightDecay > 0.0 then Times(c.weightDecay, p) else 0.0)
  {
    NegatedTimes(x, lr);
    TimesCommutes(x, lr);
    if c.enableAdamW && c.weightDecay > 0.0 {
      DecoupledDecay(p, c.weightDecay, lr, x);
      TimesCommutes(lr, x + Times(c.weightDecay, p));
    }
  }

  lemma FirstCorrectedParameter(sqrt: real -> real, c: Config, p: real, t: Tick)
    requires ValidConfig(c) && ProductRoot(sqrt)
    ensures CorrectedNext(sqrt, c, Initial(p), t).parameter == TorchParameterUpdate(sqrt, c, true, p, t)
  {
    var s := Initial(p);
    FirstDenominator(sqrt, c, s, t);
    var a := Advanced(c, s, t);
    LastSubtraction(c, p, t.lr, CorrectedMean(a) / CorrectedDenominator(sqrt, c, a));
  }

  /** On its first step the trace computes the host-side reference, in all four configurations. */
  lemma FirstStepMatchesTorch(sqrt: real -> real, c: Config, biasCorrection: bool, p: real, t: Tick)
    requires ValidConfig(c) && ProductRoot(sqrt)
    ensures var r := TraceStep(sqrt, c, biasCorrection, Initial(p), t);
            r.Some? && r.value.parameter == TorchParameterUpdate(sqrt, c, biasCorrection, p, t)
  {
    var s := Initial(p);
    var grad := GradientAt(c, s, t);
    if biasCorrection {
      CorrectedStep(sqrt, c, s, t);
      FirstCorrectedParameter(sqrt, c, p, t);
    } else {
      StepsAgree(sqrt, c, s, t);
      LastSubtraction(c, p, t.lr, NewMean(c, 0.0, grad) / Denominator(sqrt, c, NewVariance(c, 0.0, grad)));
    }
  }
}
