/**
  * The activity controller: a two-stage first-order low-pass filter over the share of
  * active pixels plus the neighbours' activation, followed by the choice of one of two
  * (gain, sample time) regimes by comparing the filtered level with a threshold.
  *
  * The filter's decay factor exp(-sampleTime / 0.7) is not computed: it is a function
  * `decay` handed to the controller, assumed (by the lemmas that need it) to lie strictly
  * between 0 and 1 for positive sample times.
  */
module Activity {
  import opened Wrappers
  import opened Utility

  /** Time constant of both filter stages, in seconds. */
  const TimeConstant: real := 0.7

  /** What exp(-t / TimeConstant) satisfies for positive t. */
  ghost predicate IsDecay(decay: real -> real) {
    forall t :: t > 0.0 ==> 0.0 < decay(t) < 1.0
  }

  /** First-order inertial element discretised by the delta transform. */
  function Lowpass(prevState: real, input: real, gain: real, decayFactor: real): real {
    (gain / TimeConstant) * input + prevState * decayFactor
  }

  /** The controller's whole state; `active` is the regime in force. */
  datatype State = State(
    below: GainSampleTime,
    above: GainSampleTime,
    threshold: real,
    percentage: real,
    level: real,
    levelD: real,
    active: GainSampleTime,
    neighbours: real)
  {
    function SampleTime(): real { active.sampleTime }
    function Gain(): real { active.gain }
    predicate IsBelowThreshold() { level < threshold }
  }

  /** A fresh controller: filter at rest, no neighbour activity, the below-threshold regime. */
  function Initial(below: GainSampleTime, above: GainSampleTime, threshold: real): (s: State)
    ensures s.percentage == 0.0 && s.level == 0.0 && s.levelD == 0.0 && s.neighbours == 0.0
    ensures s.SampleTime() == below.sampleTime && s.Gain() == below.gain
    ensures s.IsBelowThreshold() <==> 0.0 < threshold
  {
    State(below, above, threshold, 0.0, 0.0, 0.0, below, 0.0)
  }

  /** One update: stage 1, stage 2 (both with the regime in force), then regime selection. */
  function Updated(s: State, p: real, decay: real -> real): State {
    var d := decay(s.SampleTime());
    var levelD := Lowpass(s.levelD, p + s.neighbours, s.Gain(), d);
    var level := Lowpass(s.level, levelD, 1.0, d);
    s.(percentage := p, levelD := levelD, level := level,
       active := if level < s.threshold then s.below else s.above)
  }

  /** `set_params`: each given argument replaces its input. */
  function WithParams(s: State, neighbours: Option<real>, threshold: Option<real>,
                      below: Option<GainSampleTime>, above: Option<GainSampleTime>): (r: State)
    ensures r.percentage == s.percentage && r.level == s.level && r.levelD == s.levelD
    ensures r.active == s.active
    ensures r.neighbours == (if neighbours.Some? then neighbours.value else s.neighbours)
    ensures r.threshold == (if threshold.Some? then threshold.value else s.threshold)
    ensures r.below == (if below.Some? then below.value else s.below)
    ensures r.above == (if above.Some? then above.value else s.above)
  {
    var s1 := if neighbours.Some? then s.(neighbours := neighbours.value) else s;
    var s2 := if threshold.Some? then s1.(threshold := threshold.value) else s1;
    var s3 := if below.Some? then s2.(below := below.value) else s2;
    if above.Some? then s3.(above := above.value) else s3
  }

  /** The update equations, with the pre-update gain and sample time in both stages. */
  lemma UpdateEquations(s: State, p: real, decay: real -> real)
    ensures var r := Updated(s, p, decay);
      && r.percentage == p
      && r.levelD == (s.Gain() / 0.7) * (p + s.neighbours) + s.levelD * decay(s.SampleTime())
      && r.level == (1.0 / 0.7) * r.levelD + s.level * decay(s.SampleTime())
      && r.below == s.below && r.above == s.above
      && r.threshold == s.threshold && r.neighbours == s.neighbours
  {
  }

  /** After an update the regime in force is the below set exactly when the new level is strictly below. */
  lemma RegimeFollowsNewLevel(s: State, p: real, decay: real -> real)
    ensures var r := Updated(s, p, decay);
      && (r.IsBelowThreshold() ==> r.active == s.below)
      && (!r.IsBelowThreshold() ==> r.active == s.above)
      && (r.level == s.threshold ==> r.SampleTime() == s.above.sampleTime && r.Gain() == s.above.gain)
  {
  }

  /**
    * The regime sets and threshold do not affect the update that selects from them: two
    * controllers that differ only there compute the same filter outputs.
    */
  lemma CurrentUpdateUsesRegimeInForce(s: State, t: State, p: real, decay: real -> real)
    requires s.active == t.active && s.level == t.level && s.levelD == t.levelD
    requires s.neighbours == t.neighbours
    ensures Updated(s, p, decay).levelD == Updated(t, p, decay).levelD
    ensures Updated(s, p, decay).level == Updated(t, p, decay).level
  {
  }

  /**
    * `set_params` replacing a regime set leaves the sample time and gain in force alone; the
    * new set is taken up only by the next update that selects it.
    */
  lemma ReplacedRegimeTakesEffectAtNextUpdate(s: State, b: GainSampleTime, a: GainSampleTime,
                                             p: real, decay: real -> real)
    ensures var r := WithParams(s, None, None, Some(b), Some(a));
      && r.SampleTime() == s.SampleTime() && r.Gain() == s.Gain()
      && Updated(r, p, decay).levelD == Updated(s, p, decay).levelD
      && Updated(r, p, decay).level == Updated(s, p, decay).level
      && Updated(r, p, decay).active == (if Updated(s, p, decay).IsBelowThreshold() then b else a)
  {
    var r := WithParams(s, None, None, Some(b), Some(a));
    CurrentUpdateUsesRegimeInForce(r, s, p, decay);
  }

  /**
    * Raising the threshold above the level of a controller running the above-threshold
    * regime makes it report "below threshold" while the above regime stays in force.
    */
  lemma ThresholdChangeCanDisagreeWithRegime(s: State, newThreshold: real)
    requires !s.IsBelowThreshold() && s.active == s.above && s.above != s.below
    requires newThreshold > s.level
    ensures var r := WithParams(s, None, Some(newThreshold), None, None);
      r.IsBelowThreshold() && r.active == s.above && r.active != r.below
  {
  }

  /** The fixed point of one stage fed a constant input with a constant regime. */
  function FixedPoint(input: real, gain: real, d: real): real
    requires d < 1.0
  {
    (gain / TimeConstant) * input / (1.0 - d)
  }

  lemma FixedPointNonNegative(input: real, gain: real, d: real)
    requires 0.0 <= input && 0.0 <= gain && d < 1.0
    ensures 0.0 <= FixedPoint(input, gain, d)
  {
    var k := gain / TimeConstant;
    assert 0.0 <= k;
    MulMonotone(k, 0.0, input);
    QuotientNonNegative(k * input, 1.0 - d);
  }

  lemma QuotientNonNegative(x: real, y: real)
    requires 0.0 <= x && 0.0 < y
    ensures 0.0 <= x / y
  {
    var q := x / y;
    assert q * y == x;
    if q < 0.0 {
      MulMonotone(y, q, 0.0);
    }
  }

  /** One stage's distance to its fixed point shrinks by the decay factor each step. */
  lemma {:induction false} LowpassContracts(prev: real, input: real, gain: real, d: real)
    requires 0.0 < d < 1.0
    ensures Lowpass(prev, input, gain, d) - FixedPoint(input, gain, d)
            == d * (prev - FixedPoint(input, gain, d))
  {
    var k := gain / TimeConstant;
    var f := FixedPoint(input, gain, d);
    assert f * (1.0 - d) == k * input;
  }

  /** A controller whose two regimes coincide, so that no regime switch can happen. */
  predicate SingleRegime(s: State) {
    s.active == s.below == s.above
  }

  /**
    * The rising-from-rest invariant of the two-stage filter with constant, non-negative
    * input u: the derivative lies between 0 and its fixed point, and (1 - d)·level
    * is between 0 and derivative / TimeConstant.
    */
  ghost predicate Rising(s: State, u: real, d: real)
    requires d < 1.0
  {
    && 0.0 <= s.levelD <= FixedPoint(u, s.Gain(), d)
    && 0.0 <= (1.0 - d) * s.level
    && (1.0 - d) * s.level <= s.levelD / TimeConstant
  }

  lemma MulMonotone(a: real, x: real, y: real)
    requires 0.0 <= a && x <= y
    ensures a * x <= a * y
  {
  }

  /** Stage 1 from the rising invariant: the derivative grows and stays below its fixed point. */
  lemma {:induction false} DerivativeStepRises(levelD: real, u: real, gain: real, d: real)
    requires 0.0 < d < 1.0 && 0.0 <= gain && 0.0 <= u
    requires 0.0 <= levelD <= FixedPoint(u, gain, d)
    ensures levelD <= Lowpass(levelD, u, gain, d) <= FixedPoint(u, gain, d)
  {
    var f := FixedPoint(u, gain, d);
    var k := gain / TimeConstant;
    assert f * (1.0 - d) == k * u;
    MulMonotone(1.0 - d, levelD, f);
    MulMonotone(d, levelD, f);
  }

  /** Stage 2 from the rising invariant, given a derivative that grew. */
  lemma {:induction false} LevelStepRises(level: real, levelD: real, levelD': real, d: real)
    requires 0.0 < d < 1.0
    requires 0.0 <= levelD <= levelD'
    requires 0.0 <= (1.0 - d) * level <= levelD / TimeConstant
    ensures var level' := Lowpass(level, levelD', 1.0, d);
      && level <= level'
      && 0.0 <= (1.0 - d) * level' <= levelD' / TimeConstant
  {
    var e := levelD' / TimeConstant;
    var e0 := levelD / TimeConstant;
    assert Lowpass(level, levelD', 1.0, d) == e + level * d;
    assert e0 <= e;
    LevelStep(level, e0, e, d);
  }

  /** Stage 2 with the scaled derivatives e0 <= e as plain numbers. */
  lemma LevelStep(level: real, e0: real, e: real, d: real)
    requires 0.0 < d < 1.0 && 0.0 <= e0 <= e
    requires 0.0 <= (1.0 - d) * level <= e0
    ensures level <= e + level * d
    ensures 0.0 <= (1.0 - d) * (e + level * d) <= e
  {
    var a := (1.0 - d) * level;
    Distribute(d, e, level);
    MulMonotone(d, a, e);
    MulMonotone(d, 0.0, a);
    MulMonotone(1.0 - d, 0.0, e);
  }

  /** (1 - d)·(e + x·d) == (1 - d)·e + d·((1 - d)·x), and the two weights of e sum to one. */
  lemma Distribute(d: real, e: real, x: real)
    ensures (1.0 - d) * x == x - x * d
    ensures (1.0 - d) * (e + x * d) == (1.0 - d) * e + d * ((1.0 - d) * x)
    ensures (1.0 - d) * e + d * e == e
  {
  }

  /** One update with a constant regime and non-negative input keeps the invariant and raises both stages. */
  lemma {:induction false} UpdateRises(s: State, p: real, decay: real -> real)
    requires IsDecay(decay) && s.SampleTime() > 0.0 && SingleRegime(s)
    requires 0.0 <= s.Gain() && 0.0 <= p + s.neighbours
    requires Rising(s, p + s.neighbours, decay(s.SampleTime()))
    ensures var r := Updated(s, p, decay);
      && SingleRegime(r) && r.SampleTime() == s.SampleTime() && r.neighbours == s.neighbours
      && Rising(r, p + s.neighbours, decay(s.SampleTime()))
      && s.levelD <= r.levelD && s.level <= r.level
  {
    var d := decay(s.SampleTime());
    var u := p + s.neighbours;
    var r := Updated(s, p, decay);
    assert r.active == s.active && r.Gain() == s.Gain();
    assert r.levelD == Lowpass(s.levelD, u, s.Gain(), d);
    assert r.level == Lowpass(s.level, r.levelD, 1.0, d);
    DerivativeStepRises(s.levelD, u, s.Gain(), d);
    LevelStepRises(s.level, s.levelD, r.levelD, d);
  }

  /** `n` updates with the same input. */
  function Run(s: State, p: real, decay: real -> real, n: nat): State
    decreases n
  {
    if n == 0 then s else Updated(Run(s, p, decay, n - 1), p, decay)
  }

  /** Constant input, one regime, a fresh filter: the activation level never decreases. */
  lemma {:induction false} StepResponseIsMonotone(s: State, p: real, decay: real -> real, n: nat)
    requires IsDecay(decay) && s.SampleTime() > 0.0 && SingleRegime(s)
    requires 0.0 <= s.Gain() && 0.0 <= p + s.neighbours
    requires s.level == 0.0 && s.levelD == 0.0
    ensures Run(s, p, decay, n).level <= Run(s, p, decay, n + 1).level
  {
    RunKeepsRising(s, p, decay, n);
    var sn := Run(s, p, decay, n);
    assert Run(s, p, decay, n + 1) == Updated(sn, p, decay);
    UpdateRises(sn, p, decay);
  }

  /**
    * Constant input, one regime, a fresh filter: the activation level never exceeds the
    * fixed point FixedPoint(u) / (TimeConstant · (1 - d)) of the two stages.
    */
  lemma {:induction false} StepResponseIsBounded(s: State, p: real, decay: real -> real, n: nat)
    requires IsDecay(decay) && s.SampleTime() > 0.0 && SingleRegime(s)
    requires 0.0 <= s.Gain() && 0.0 <= p + s.neighbours
    requires s.level == 0.0 && s.levelD == 0.0
    ensures var d := decay(s.SampleTime());
      Run(s, p, decay, n).level * (TimeConstant * (1.0 - d)) <= FixedPoint(p + s.neighbours, s.Gain(), d)
  {
    RunKeepsRising(s, p, decay, n);
    RisingLevelBound(Run(s, p, decay, n), p + s.neighbours, s.Gain(), decay(s.SampleTime()));
  }

  /** Under the rising invariant the level stays below the two stages' combined fixed point. */
  lemma RisingLevelBound(st: State, u: real, gain: real, d: real)
    requires d < 1.0 && st.Gain() == gain && Rising(st, u, d)
    ensures st.level * (TimeConstant * (1.0 - d)) <= FixedPoint(u, gain, d)
  {
    var c := 1.0 - d;
    assert st.level * (TimeConstant * c) == TimeConstant * (c * st.level);
  }

  /** The rising invariant holds after any number of constant-input updates from rest. */
  lemma {:induction false} RunKeepsRising(s: State, p: real, decay: real -> real, n: nat)
    requires IsDecay(decay) && s.SampleTime() > 0.0 && SingleRegime(s)
    requires 0.0 <= s.Gain() && 0.0 <= p + s.neighbours
    requires s.level == 0.0 && s.levelD == 0.0
    ensures var r := Run(s, p, decay, n);
      && SingleRegime(r) && r.active == s.active && r.neighbours == s.neighbours
      && Rising(r, p + s.neighbours, decay(s.SampleTime()))
  {
    var d := decay(s.SampleTime());
    var u := p + s.neighbours;
    if n == 0 {
      assert 0.0 < d < 1.0;
      FixedPointNonNegative(u, s.Gain(), d);
    } else {
      RunKeepsRising(s, p, decay, n - 1);
      var prev := Run(s, p, decay, n - 1);
      assert Run(s, p, decay, n) == Updated(prev, p, decay);
      UpdateRises(prev, p, decay);
    }
  }

  /** `d` to the power `n`. */
  function Power(d: real, n: nat): real
    decreases n
  {
    if n == 0 then 1.0 else d * Power(d, n - 1)
  }

  /** For a decay factor the powers lie in (0, 1] and shrink strictly with every step. */
  lemma {:induction false} PowerShrinks(d: real, n: nat)
    requires 0.0 < d < 1.0
    ensures 0.0 < Power(d, n + 1) < Power(d, n) <= 1.0
  {
    if n > 0 {
      PowerShrinks(d, n - 1);
    }
    var x := Power(d, n);
    assert Power(d, n + 1) == d * x;
    ScaleDown(d, x);
  }

  lemma ScaleDown(d: real, x: real)
    requires 0.0 < d < 1.0 && 0.0 < x
    ensures 0.0 < d * x < x
  {
    MulMonotone(x, d, 1.0);
    assert x * d != x;
  }

  /** With one regime, updates never change the regime in force or the neighbour activation. */
  lemma {:induction false} RunKeepsRegime(s: State, p: real, decay: real -> real, n: nat)
    requires SingleRegime(s)
    ensures SingleRegime(Run(s, p, decay, n)) && Run(s, p, decay, n).active == s.active
    ensures Run(s, p, decay, n).neighbours == s.neighbours
  {
    if n > 0 {
      RunKeepsRegime(s, p, decay, n - 1);
    }
  }

  /** The first stage alone, fed `u` for `n` updates with gain `gain` and decay factor `d`. */
  function DerivativeRun(x: real, u: real, gain: real, d: real, n: nat): real
    decreases n
  {
    if n == 0 then x else Lowpass(DerivativeRun(x, u, gain, d, n - 1), u, gain, d)
  }

  /** With one regime, the controller's derivative after n updates is the first stage run alone. */
  lemma {:induction false} RunDerivative(s: State, p: real, decay: real -> real, n: nat)
    requires SingleRegime(s)
    ensures Run(s, p, decay, n).levelD
            == DerivativeRun(s.levelD, p + s.neighbours, s.Gain(), decay(s.SampleTime()), n)
  {
    if n > 0 {
      var prev := Run(s, p, decay, n - 1);
      RunDerivative(s, p, decay, n - 1);
      RunKeepsRegime(s, p, decay, n - 1);
      assert prev.Gain() == s.Gain() && prev.SampleTime() == s.SampleTime();
      UpdatedDerivative(prev, p, decay);
    }
  }

  /** An update's derivative is the first stage applied to the pre-update derivative. */
  lemma UpdatedDerivative(s: State, p: real, decay: real -> real)
    ensures Updated(s, p, decay).levelD == Lowpass(s.levelD, p + s.neighbours, s.Gain(), decay(s.SampleTime()))
  {}

  /** The first stage's gap to its fixed point f after n updates is the initial gap times dⁿ. */
  lemma {:induction false} DerivativeRunClosedForm(x: real, u: real, gain: real, d: real, n: nat)
    requires 0.0 < d < 1.0
    ensures DerivativeRun(x, u, gain, d, n) - FixedPoint(u, gain, d)
            == (x - FixedPoint(u, gain, d)) * Power(d, n)
  {
    if n > 0 {
      var prev := DerivativeRun(x, u, gain, d, n - 1);
      var f := FixedPoint(u, gain, d);
      DerivativeRunClosedForm(x, u, gain, d, n - 1);
      LowpassContracts(prev, u, gain, d);
      GapScales(DerivativeRun(x, u, gain, d, n) - f, prev - f, x - f, Power(d, n - 1), d);
    }
  }

  /** One contraction step: a gap c·a scaled by d is c·(d·a). */
  lemma GapScales(next: real, gap: real, c: real, a: real, d: real)
    requires gap == c * a && next == d * gap
    ensures next == c * (d * a)
  {}

  /** The controller object: its fields are the filter memory, the inputs and the regime in force. */
  class ActivityController {
    var below: GainSampleTime
    var above: GainSampleTime
    var threshold: real
    var percentage: real
    var level: real
    var levelD: real
    var active: GainSampleTime
    var neighbours: real
    const decay: real -> real

    function Snapshot(): State
      reads this
    {
      State(below, above, threshold, percentage, level, levelD, active, neighbours)
    }

    constructor (below: GainSampleTime, above: GainSampleTime, threshold: real, decay: real -> real)
      ensures Snapshot() == Initial(below, above, threshold)
      ensures this.decay == decay
    {
      this.below := below;
      this.above := above;
      this.threshold := threshold;
      percentage := 0.0;
      level := 0.0;
      levelD := 0.0;
      active := below;
      neighbours := 0.0;
      this.decay := decay;
    }

    function SampleTime(): real reads this { Snapshot().SampleTime() }
    function Gain(): real reads this { Snapshot().Gain() }
    function ActivationLevel(): real reads this { level }
    function PercentageOfActivePixels(): real reads this { percentage }
    predicate IsBelowThreshold() reads this { Snapshot().IsBelowThreshold() }

    /** Patches the given inputs; filter memory and the regime in force are left alone. */
    method SetParams(neighbours: Option<real>, threshold: Option<real>,
                     below: Option<GainSampleTime>, above: Option<GainSampleTime>)
      modifies this
      ensures Snapshot() == WithParams(old(Snapshot()), neighbours, threshold, below, above)
    {
      if neighbours.Some? {
        this.neighbours := neighbours.value;
      }
      if threshold.Some? {
        this.threshold := threshold.value;
      }
      if below.Some? {
        this.below := below.value;
      }
      if above.Some? {
        this.above := above.value;
      }
    }

    /** Feeds one activity percentage through both stages, then selects the regime. */
    method Update(p: real)
      modifies this
      ensures Snapshot() == Updated(old(Snapshot()), p, decay)
    {
      percentage := p;
      var levelDUpdated := Lowpass(levelD, p + neighbours, active.gain, decay(active.sampleTime));
      levelD := levelDUpdated;
      var levelUpdated := Lowpass(level, levelD, 1.0, decay(active.sampleTime));
      level := levelUpdated;
      if level < threshold {
        active := below;
      } else {
        active := above;
      }
    }
  }
}
