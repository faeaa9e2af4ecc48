/** The capacity controller (crates/agent-runtime/src/capacity.rs).

    Observations feed a bounded window of slack values; a profile of the window
    gives a risk band; `decide` proposes an intervention unless a cooldown or a
    per-turn gate blocks it. Arithmetic is over exact reals, the slack of an
    observation is given, and the mapping from profile to risk band is a
    parameter. */
module Capacity {
  import opened Wrappers
  import opened Sequences

  // ----- The profile of a window ---------------------------------------------------

  /** `minSlack` is absent for the empty window (the program uses infinity). */
  datatype Profile = Profile(
    finalSlack: real,
    minSlack: Option<real>,
    violationRatio: real,
    slackVolatility: real,
    slackDrop: real
  )

  const EMPTY_PROFILE := Profile(0.0, None, 0.0, 0.0, 0.0)

  function Sum(s: seq<real>): real {
    if s == [] then 0.0 else Sum(s[..|s| - 1]) + s[|s| - 1]
  }

  /** The sum of `f` over the values. */
  function SumBy(s: seq<real>, f: real -> real): real {
    if s == [] then 0.0 else SumBy(s[..|s| - 1], f) + f(s[|s| - 1])
  }

  function Square(x: real): real {
    x * x
  }

  /** The squared deviation from `m`. */
  function Deviation(m: real): real -> real {
    x => (x - m) * (x - m)
  }

  function Mean(s: seq<real>): real
    requires s != []
  {
    Sum(s) / |s| as real
  }

  /** The mean squared deviation from the mean. */
  function Variance(s: seq<real>): real {
    if s == [] then 0.0 else SumBy(s, Deviation(Mean(s))) / |s| as real
  }

  function Deltas(w: seq<real>): (d: seq<real>)
    ensures |d| == if w == [] then 0 else |w| - 1
    ensures forall k :: 0 <= k < |d| ==> d[k] == w[k + 1] - w[k]
  {
    if w == [] then [] else seq(|w| - 1, k requires 0 <= k < |w| - 1 => w[k + 1] - w[k])
  }

  function Violations(w: seq<real>): (n: nat)
    ensures n <= |w|
  {
    if w == [] then 0 else Violations(w[..|w| - 1]) + if w[|w| - 1] <= 0.0 then 1 else 0
  }

  function Minimum(w: seq<real>): real
    requires w != []
  {
    var last := w[|w| - 1];
    if |w| == 1 then last
    else var m := Minimum(w[..|w| - 1]); if last < m then last else m
  }

  function PositivePart(x: real): real {
    if x > 0.0 then x else 0.0
  }

  /** The profile by its definitions: last value, least value, share of values at or below zero,
      standard deviation of the steps, last step if it was a drop. */
  function ProfileOf(w: seq<real>, root: real -> real): Profile {
    if w == [] then EMPTY_PROFILE
    else Profile(w[|w| - 1], Some(Minimum(w)), Violations(w) as real / |w| as real,
                 if |w| == 1 then 0.0 else root(Variance(Deltas(w))),
                 if |w| == 1 then 0.0 else PositivePart(w[|w| - 2] - w[|w| - 1]))
  }

  ghost predicate IsSquareRoot(root: real -> real) {
    forall x {:trigger root(x)} :: x >= 0.0 ==> root(x) >= 0.0 && Square(root(x)) == x
  }

  lemma {:induction false} MinimumIsLeast(w: seq<real>)
    requires w != []
    ensures Minimum(w) in w && forall x :: x in w ==> Minimum(w) <= x
  {
    if |w| > 1 {
      var init := w[..|w| - 1];
      MinimumIsLeast(init);
      assert w == init + [w[|w| - 1]];
    }
  }

  function Repeated(n: nat, t: real): real {
    if n == 0 then 0.0 else Repeated(n - 1, t) + t
  }

  /** Sums are linear in the function summed. */
  lemma {:induction false} SumIsLinear(s: seq<real>, f: real -> real, g: real -> real, h: real -> real, t: real)
    requires forall x {:trigger f(x)} :: f(x) == g(x) - 2.0 * h(x) + t
    ensures SumBy(s, f) == SumBy(s, g) - 2.0 * SumBy(s, h) + Repeated(|s|, t)
  {
    if s != [] {
      SumIsLinear(s[..|s| - 1], f, g, h, t);
    }
  }

  lemma Distribute(m: real, a: real, b: real)
    ensures m * (a + b) == m * a + m * b
  {}

  lemma {:induction false} RepeatedIsProduct(n: nat, t: real)
    ensures Repeated(n, t) == t * n as real
  {
    if n > 0 {
      RepeatedIsProduct(n - 1, t);
      Distribute(t, (n - 1) as real, 1.0);
    }
  }

  lemma {:induction false} ScaledSum(s: seq<real>, m: real, h: real -> real)
    requires forall x {:trigger h(x)} :: h(x) == m * x
    ensures SumBy(s, h) == m * Sum(s)
  {
    if s != [] {
      ScaledSum(s[..|s| - 1], m, h);
      Distribute(m, Sum(s[..|s| - 1]), s[|s| - 1]);
    }
  }

  /** With mean m = sum / n, the expansion divided by n is mean square less squared mean. */
  lemma MeanOfDeviations(deviations: real, squares: real, scaled: real, repeated: real, sum: real, n: real, m: real)
    requires n > 0.0 && m == sum / n
    requires deviations == squares - 2.0 * scaled + repeated && scaled == m * sum && repeated == m * m * n
    ensures squares / n - m * m == deviations / n
  {}

  function Scale(m: real): real -> real {
    x => m * x
  }

  lemma DeviationsExpand(s: seq<real>, m: real)
    ensures SumBy(s, Deviation(m)) == SumBy(s, Square) - 2.0 * SumBy(s, Scale(m)) + Repeated(|s|, m * m)
  {}

  lemma ScaledSumIsProduct(s: seq<real>, m: real)
    ensures SumBy(s, Scale(m)) == m * Sum(s)
  {}

  /** The sums of the expansion, as plain numbers. */
  lemma ExpansionAsNumbers(s: seq<real>, m: real, n: real)
    returns (deviations: real, squares: real, sum: real, scaled: real, repeated: real)
    requires n == |s| as real
    ensures deviations == SumBy(s, Deviation(m)) && squares == SumBy(s, Square) && sum == Sum(s)
    ensures deviations == squares - 2.0 * scaled + repeated
    ensures scaled == m * sum && repeated == m * m * n
  {
    DeviationsExpand(s, m);
    deviations, squares, sum := SumBy(s, Deviation(m)), SumBy(s, Square), Sum(s);
    scaled, repeated := SumBy(s, Scale(m)), Repeated(|s|, m * m);
    ScaledSumIsProduct(s, m);
    RepeatedIsProduct(|s|, m * m);
  }

  lemma OnePassAt(s: seq<real>, n: real, m: real) returns (deviations: real, squares: real)
    requires n > 0.0 && n == |s| as real && m == Sum(s) / n
    ensures deviations == SumBy(s, Deviation(m)) && squares == SumBy(s, Square)
    ensures squares / n - m * m == deviations / n
  {
    var sum, scaled, repeated;
    deviations, squares, sum, scaled, repeated := ExpansionAsNumbers(s, m, n);
    MeanOfDeviations(deviations, squares, scaled, repeated, sum, n, m);
  }

  /** Over exact reals the one-pass form is the definition: mean square less squared mean. */
  lemma OnePassVariance(s: seq<real>, n: real, m: real)
    requires s != [] && n == |s| as real && m == Mean(s)
    ensures SumBy(s, Square) / n - m * m == Variance(s)
  {
    var deviations, squares := OnePassAt(s, n, m);
  }

  lemma SquareNonNegative(x: real)
    ensures x * x >= 0.0
  {}

  lemma {:induction false} SumNonNegative(s: seq<real>, f: real -> real)
    requires forall x :: f(x) >= 0.0
    ensures SumBy(s, f) >= 0.0
  {
    if s != [] {
      SumNonNegative(s[..|s| - 1], f);
    }
  }

  lemma QuotientBounds(a: real, n: real)
    requires 0.0 <= a && n > 0.0
    ensures a / n >= 0.0 && (a <= n ==> a / n <= 1.0)
  {}

  lemma VarianceNonNegative(s: seq<real>)
    ensures Variance(s) >= 0.0
  {
    if s != [] {
      var m := Mean(s);
      forall x ensures Deviation(m)(x) >= 0.0 {
        SquareNonNegative(x - m);
      }
      SumNonNegative(s, Deviation(m));
      QuotientBounds(SumBy(s, Deviation(m)), |s| as real);
    }
  }

  /** The values at or below zero are counted once each. */
  lemma {:induction false} ViolationsAre(w: seq<real>)
    ensures Violations(w) == |set i | 0 <= i < |w| && w[i] <= 0.0|
  {
    if w != [] {
      var n := |w| - 1;
      var init := w[..n];
      ViolationsAre(init);
      var before := set i | 0 <= i < |init| && init[i] <= 0.0;
      assert forall i :: 0 <= i < n ==> init[i] == w[i];
      assert (set i | 0 <= i < |w| && w[i] <= 0.0) == if w[n] <= 0.0 then before + {n} else before;
    }
  }

  /** For every window: the final value is the last, the ratio is the share of values at or below zero, the
      minimum is attained and no larger than any value, and the drop is that of the last step, if it was one. */
  lemma ProfileIsSound(w: seq<real>, root: real -> real)
    ensures w == [] ==> ProfileOf(w, root) == Profile(0.0, None, 0.0, 0.0, 0.0)
    ensures w != [] ==> ProfileOf(w, root).finalSlack == w[|w| - 1]
    ensures 0.0 <= ProfileOf(w, root).violationRatio <= 1.0
    ensures w != [] ==> ProfileOf(w, root).violationRatio == |set i | 0 <= i < |w| && w[i] <= 0.0| as real / |w| as real
    ensures w != [] ==> var least := ProfileOf(w, root).minSlack;
                        least.Some? && least.value in w && least.value <= ProfileOf(w, root).finalSlack &&
                        forall x :: x in w ==> least.value <= x
    ensures ProfileOf(w, root).slackDrop ==
            if |w| > 1 && w[|w| - 2] > w[|w| - 1] then w[|w| - 2] - w[|w| - 1] else 0.0
  {
    if w != [] {
      MinimumIsLeast(w);
      ViolationsAre(w);
      QuotientBounds(Violations(w) as real, |w| as real);
    }
  }

  /** For every window the volatility is the nonnegative number whose square is the variance. */
  lemma VolatilityIsDeviation(w: seq<real>, root: real -> real)
    requires IsSquareRoot(root)
    ensures ProfileOf(w, root).slackVolatility >= 0.0
    ensures Square(ProfileOf(w, root).slackVolatility) == Variance(Deltas(w))
  {
    VarianceNonNegative(Deltas(w));
  }

  /** The accumulators after the first `n` values. */
  ghost predicate ValuesSeen(w: seq<real>, n: nat, least: Option<real>, violations: nat, prev: Option<real>)
    requires n <= |w|
  {
    least == (if n == 0 then None else Some(Minimum(w[..n]))) && violations == Violations(w[..n]) &&
    prev == if n == 0 then None else Some(w[n - 1])
  }

  /** The accumulators after the first `n` steps. */
  ghost predicate DeltasSeen(deltas: seq<real>, square: real -> real, n: nat, sum: real, squares: real) {
    n <= |deltas| && sum == Sum(deltas[..n]) && squares == SumBy(deltas[..n], square)
  }

  lemma NothingSeen(w: seq<real>, deltas: seq<real>, square: real -> real)
    ensures ValuesSeen(w, 0, None, 0, None) && DeltasSeen(deltas, square, 0, 0.0, 0.0)
  {}

  lemma OneMoreValue(w: seq<real>, n: nat, least: Option<real>, violations: nat, prev: Option<real>)
    requires n < |w| && ValuesSeen(w, n, least, violations, prev)
    ensures ValuesSeen(w, n + 1, if least.None? || w[n] < least.value then Some(w[n]) else least,
                       violations + if w[n] <= 0.0 then 1 else 0, Some(w[n]))
  {
    assert w[..n + 1][..n] == w[..n];
  }

  lemma OneMoreDelta(deltas: seq<real>, square: real -> real, n: nat, delta: real, sum: real, squares: real)
    requires n < |deltas| && delta == deltas[n] && DeltasSeen(deltas, square, n, sum, squares)
    ensures DeltasSeen(deltas, square, n + 1, sum + delta, squares + square(delta))
  {
    assert deltas[..n + 1][..n] == deltas[..n];
  }

  lemma AllSeen(w: seq<real>, deltas: seq<real>, square: real -> real, least: Option<real>, violations: nat,
                prev: Option<real>, sum: real, squares: real)
    requires w != [] && ValuesSeen(w, |w|, least, violations, prev) && DeltasSeen(deltas, square, |deltas|, sum, squares)
    ensures least == Some(Minimum(w)) && violations == Violations(w)
    ensures sum == Sum(deltas) && squares == SumBy(deltas, square)
  {
    assert w[..|w|] == w && deltas[..|deltas|] == deltas;
  }

  /** The single pass with rolling accumulators; `square` is what `x * x` computes. */
  method Accumulate(window: seq<real>, square: real -> real)
    returns (minSlack: real, violations: nat, deltaSum: real, deltaSumSq: real, deltaCount: nat)
    requires window != []
    ensures minSlack == Minimum(window) && violations == Violations(window)
    ensures deltaCount == |window| - 1 && deltaSum == Sum(Deltas(window)) && deltaSumSq == SumBy(Deltas(window), square)
  {
    var least: Option<real> := None;
    var prev: Option<real> := None;
    violations, deltaSum, deltaSumSq, deltaCount := 0, 0.0, 0.0, 0;
    ghost var deltas := Deltas(window);
    NothingSeen(window, deltas, square);
    for i := 0 to |window|
      invariant ValuesSeen(window, i, least, violations, prev)
      invariant deltaCount == if i == 0 then 0 else i - 1
      invariant DeltasSeen(deltas, square, deltaCount, deltaSum, deltaSumSq)
    {
      var value := window[i];
      OneMoreValue(window, i, least, violations, prev);
      if least.None? || value < least.value {
        least := Some(value);
      }
      if value <= 0.0 {
        violations := violations + 1;
      }
      if prev.Some? {
        var delta := value - prev.value;
        assert delta == deltas[deltaCount];
        OneMoreDelta(deltas, square, deltaCount, delta, deltaSum, deltaSumSq);
        deltaSum, deltaSumSq, deltaCount := deltaSum + delta, deltaSumSq + square(delta), deltaCount + 1;
      }
      prev := Some(value);
    }
    AllSeen(window, deltas, square, least, violations, prev, deltaSum, deltaSumSq);
    minSlack := least.value;
  }

  /** `root` is the square root. Clamping the variance before it changes nothing over exact reals. */
  method VolatilityFrom(deltaSum: real, deltaSumSq: real, deltaCount: nat, root: real -> real, ghost deltas: seq<real>)
    returns (volatility: real)
    requires deltaCount == |deltas| && deltaSum == Sum(deltas) && deltaSumSq == SumBy(deltas, Square)
    ensures volatility == if deltas == [] then 0.0 else root(Variance(deltas))
  {
    if deltaCount == 0 {
      return 0.0;
    }
    var n := deltaCount as real;
    var mean := deltaSum / n;
    OnePassVariance(deltas, n, mean);
    VarianceNonNegative(deltas);
    volatility := root(PositivePart(deltaSumSq / n - mean * mean));
  }

  /** The single-pass routine computes the profile. */
  method ComputeProfile(window: seq<real>, root: real -> real) returns (p: Profile)
    ensures p == ProfileOf(window, root)
  {
    if window == [] {
      return EMPTY_PROFILE;
    }
    var minSlack, violations, deltaSum, deltaSumSq, deltaCount := Accumulate(window, Square);
    var finalSlack := window[|window| - 1];
    var drop := if |window| == 1 then 0.0 else PositivePart(window[|window| - 2] - finalSlack);
    var volatility := VolatilityFrom(deltaSum, deltaSumSq, deltaCount, root, Deltas(window));
    p := Profile(finalSlack, Some(minSlack), violations as real / |window| as real, volatility, drop);
  }

  // ----- Configuration, observations, decisions ------------------------------------------

  datatype RiskBand = Low | Medium | High

  datatype Action = NoIntervention | TargetedContextRefresh | VerifyWithToolReplay | VerifyAndReplan

  datatype Config = Config(
    enabled: bool,
    minTurns: nat,
    refreshCooldown: nat,
    replanCooldown: nat,
    maxReplayPerTurn: nat,
    profileWindow: nat,
    severeMinSlack: real,
    severeViolationRatio: real,
    riskBand: Profile -> RiskBand,
    root: real -> real
  )

  /** `ratioFinite` and `priorFinite` say whether the two inputs that may be garbage are numbers. */
  datatype Observation = Observation(turn: nat, ratioFinite: bool, priorFinite: bool, slack: real, tools: nat, refs: nat)

  datatype Snapshot = Snapshot(turn: nat, slack: real, profile: Profile, band: RiskBand, severe: bool)

  datatype Decision = Decision(action: Action, reason: string, cooldownBlocked: bool)

  datatype State = State(
    slackWindow: seq<real>,
    toolCounts: seq<nat>,
    refCounts: seq<nat>,
    lastRefresh: Option<nat>,
    lastReplan: Option<nat>,
    replayCount: nat,
    replayDisabled: Option<nat>,
    applied: Option<nat>,
    lastSnapshot: Option<Snapshot>
  )

  const INIT := State([], [], [], None, None, 0, None, None, None)

  function IsNewTurn(s: State, turn: nat): bool {
    s.lastSnapshot.None? || s.lastSnapshot.value.turn != turn
  }

  function ResetPerTurn(s: State): State {
    s.(replayCount := 0, replayDisabled := None, applied := None)
  }

  function TurnStarted(s: State, turn: nat): State {
    if IsNewTurn(s, turn) then ResetPerTurn(s) else s
  }

  predicate Accepted(c: Config, o: Observation) {
    c.enabled && o.ratioFinite && o.priorFinite
  }

  predicate Severe(c: Config, p: Profile) {
    (p.minSlack.Some? && p.minSlack.value <= c.severeMinSlack) || p.violationRatio >= c.severeViolationRatio
  }

  function SnapshotOf(c: Config, o: Observation, profile: Profile): Snapshot {
    Snapshot(o.turn, o.slack, profile, c.riskBand(profile), Severe(c, profile))
  }

  function Pushed(c: Config, s: State, o: Observation): State {
    s.(slackWindow := LastK(c.profileWindow, s.slackWindow + [o.slack]),
       toolCounts := LastK(c.profileWindow, s.toolCounts + [o.tools]),
       refCounts := LastK(c.profileWindow, s.refCounts + [o.refs]))
  }

  /** A rejected observation may still reset the per-turn counters: the second check comes later. */
  function Observed(c: Config, s: State, o: Observation): (State, Option<Snapshot>) {
    if !c.enabled || !o.ratioFinite then (s, None)
    else
      var r := TurnStarted(s, o.turn);
      if !o.priorFinite then (r, None)
      else
        var p := Pushed(c, r, o);
        var snapshot := SnapshotOf(c, o, ProfileOf(p.slackWindow, c.root));
        (p.(lastSnapshot := Some(snapshot)), Some(snapshot))
  }

  function Policy(snapshot: Snapshot): Action {
    match snapshot.band
    case Low => NoIntervention
    case Medium => TargetedContextRefresh
    case High => if snapshot.severe then VerifyAndReplan else VerifyWithToolReplay
  }

  predicate CoolingDown(last: Option<nat>, cooldown: nat, turn: nat) {
    last.Some? && turn <= last.value + cooldown
  }

  /** Why a proposed action is blocked in this turn, if it is. */
  function BlockedBecause(c: Config, s: State, turn: nat, action: Action): Option<string> {
    if s.applied == Some(turn) then Some("intervention_already_applied_this_turn")
    else
      match action
      case TargetedContextRefresh =>
        if CoolingDown(s.lastRefresh, c.refreshCooldown, turn) then Some("refresh_cooldown_active") else None
      case VerifyWithToolReplay =>
        if s.replayDisabled == Some(turn) then Some("replay_disabled_for_turn")
        else if s.replayCount >= c.maxReplayPerTurn then Some("max_replay_per_turn_reached") else None
      case VerifyAndReplan =>
        if CoolingDown(s.lastReplan, c.replanCooldown, turn) then Some("replan_cooldown_active") else None
      case NoIntervention => None
  }

  function Decided(c: Config, s: State, turn: nat, snapshot: Option<Snapshot>): Decision {
    if !c.enabled then Decision(NoIntervention, "capacity_controller_disabled", false)
    else if snapshot.None? then Decision(NoIntervention, "missing_capacity_data_fail_open", false)
    else if turn < c.minTurns then Decision(NoIntervention, "min_turns_before_guardrail_not_reached", false)
    else
      var proposed := Policy(snapshot.value);
      if proposed == NoIntervention then Decision(NoIntervention, "low_risk_no_intervention", false)
      else
        match BlockedBecause(c, s, turn, proposed)
        case Some(reason) => Decision(NoIntervention, reason, true)
        case None => Decision(proposed, "policy_selected_action", false)
  }

  function Marked(s: State, turn: nat, action: Action): State {
    var r := s.(applied := Some(turn));
    match action
    case TargetedContextRefresh => r.(lastRefresh := Some(turn))
    case VerifyWithToolReplay => r.(replayCount := r.replayCount + 1)
    case VerifyAndReplan => r.(lastReplan := Some(turn))
    case NoIntervention => r
  }

  // ----- The controller ---------------------------------------------------------------------

  method TakeSnapshot(config: Config, o: Observation, window: seq<real>) returns (snapshot: Snapshot)
    ensures snapshot == SnapshotOf(config, o, ProfileOf(window, config.root))
  {
    var profile := ComputeProfile(window, config.root);
    var severe := (profile.minSlack.Some? && profile.minSlack.value <= config.severeMinSlack)
                  || profile.violationRatio >= config.severeViolationRatio;
    snapshot := Snapshot(o.turn, o.slack, profile, config.riskBand(profile), severe);
  }

  method PushWindow<T>(window: seq<T>, value: T, maxLen: nat) returns (r: seq<T>)
    ensures r == LastK(maxLen, window + [value])
  {
    r := window + [value];
    while |r| > maxLen
      invariant |r| <= |window| + 1 && r == (window + [value])[|window| + 1 - |r|..]
      invariant |r| >= maxLen || r == window + [value]
    {
      r := r[1..];
    }
  }

  class CapacityController {
    const config: Config
    var slackWindow: seq<real>
    var toolCounts: seq<nat>
    var refCounts: seq<nat>
    var lastRefresh: Option<nat>
    var lastReplan: Option<nat>
    var replayCount: nat
    var replayDisabled: Option<nat>
    var applied: Option<nat>
    var lastSnapshot: Option<Snapshot>

    constructor (config: Config)
      ensures View() == INIT && this.config == config
    {
      this.config := config;
      slackWindow, toolCounts, refCounts := [], [], [];
      lastRefresh, lastReplan, replayCount, replayDisabled, applied, lastSnapshot := None, None, 0, None, None, None;
    }

    ghost function View(): State
      reads this
    {
      State(slackWindow, toolCounts, refCounts, lastRefresh, lastReplan, replayCount, replayDisabled, applied, lastSnapshot)
    }

    method ResetPerTurnState(turn: nat)
      modifies this`replayCount, this`replayDisabled, this`applied
      ensures View() == TurnStarted(old(View()), turn)
    {
      if lastSnapshot.None? || lastSnapshot.value.turn != turn {
        replayCount, replayDisabled, applied := 0, None, None;
      }
    }

    method MarkTurnStart(turn: nat)
      modifies this
      ensures View() == TurnStarted(old(View()), turn)
    {
      ResetPerTurnState(turn);
    }

    method Push(o: Observation)
      modifies this`slackWindow, this`toolCounts, this`refCounts
      ensures View() == Pushed(config, old(View()), o)
    {
      slackWindow := PushWindow(slackWindow, o.slack, config.profileWindow);
      toolCounts := PushWindow(toolCounts, o.tools, config.profileWindow);
      refCounts := PushWindow(refCounts, o.refs, config.profileWindow);
    }

    method Observe(o: Observation) returns (snapshot: Option<Snapshot>)
      modifies this
      ensures (View(), snapshot) == Observed(config, old(View()), o)
    {
      if !config.enabled || !o.ratioFinite {
        return None;
      }
      ResetPerTurnState(o.turn);
      if !o.priorFinite {
        return None;
      }
      Push(o);
      var taken := TakeSnapshot(config, o, slackWindow);
      lastSnapshot := Some(taken);
      snapshot := lastSnapshot;
    }

    method Decide(turn: nat, snapshot: Option<Snapshot>) returns (decision: Decision)
      ensures decision == Decided(config, View(), turn, snapshot)
    {
      if !config.enabled {
        return Decision(NoIntervention, "capacity_controller_disabled", false);
      }
      if snapshot.None? {
        return Decision(NoIntervention, "missing_capacity_data_fail_open", false);
      }
      if turn < config.minTurns {
        return Decision(NoIntervention, "min_turns_before_guardrail_not_reached", false);
      }
      var proposed := Policy(snapshot.value);
      if proposed == NoIntervention {
        return Decision(proposed, "low_risk_no_intervention", false);
      }
      if applied == Some(turn) {
        return Decision(NoIntervention, "intervention_already_applied_this_turn", true);
      }
      match proposed {
        case TargetedContextRefresh =>
          if CoolingDown(lastRefresh, config.refreshCooldown, turn) {
            return Decision(NoIntervention, "refresh_cooldown_active", true);
          }
        case VerifyWithToolReplay =>
          if replayDisabled == Some(turn) {
            return Decision(NoIntervention, "replay_disabled_for_turn", true);
          }
          if replayCount >= config.maxReplayPerTurn {
            return Decision(NoIntervention, "max_replay_per_turn_reached", true);
          }
        case VerifyAndReplan =>
          if CoolingDown(lastReplan, config.replanCooldown, turn) {
            return Decision(NoIntervention, "replan_cooldown_active", true);
          }
        case NoIntervention =>
      }
      return Decision(proposed, "policy_selected_action", false);
    }

    method MarkInterventionApplied(turn: nat, action: Action)
      modifies this
      ensures View() == Marked(old(View()), turn, action)
    {
      applied := Some(turn);
      match action {
        case TargetedContextRefresh => lastRefresh := Some(turn);
        case VerifyWithToolReplay => replayCount := replayCount + 1;
        case VerifyAndReplan => lastReplan := Some(turn);
        case NoIntervention =>
      }
    }

    method MarkReplayFailed(turn: nat)
      modifies this`replayDisabled
      ensures View() == old(View()).(replayDisabled := Some(turn))
    {
      replayDisabled := Some(turn);
    }
  }

  // ----- Runs --------------------------------------------------------------------------------

  datatype Mark = Mark(turn: nat, action: Action)

  /** The controller together with what its host has done: the turn it is in, an action decided
      but not yet marked, the marks so far, and every accepted observation. */
  datatype Host = Host(c: State, now: nat, pending: Option<Action>, marks: seq<Mark>, seen: seq<Observation>)

  const START := Host(INIT, 0, None, [], [])

  datatype Step =
    | Observe(o: Observation)
    | TurnStart(turn: nat)
    | Decide(turn: nat, snapshot: Option<Snapshot>)
    | MarkApplied
    | DropAction
    | MarkAgain(action: Action)
    | ReplayFailed(turn: nat)

  function TurnOf(h: Host, step: Step): nat {
    match step
    case Observe(o) => o.turn
    case TurnStart(turn) => turn
    case Decide(turn, _) => turn
    case MarkApplied => h.now
    case DropAction => h.now
    case MarkAgain(_) => h.now
    case ReplayFailed(turn) => turn
  }

  /** Turns never go back; a decided action is marked or dropped, in its turn, before the next
      decision. An intervention already marked may be marked again in its turn: the host does so once
      it has carried it out. */
  predicate Legal(h: Host, step: Step) {
    TurnOf(h, step) >= h.now && (h.pending.Some? ==> TurnOf(h, step) == h.now && !step.Decide?) &&
    (step.MarkApplied? || step.DropAction? ==> h.pending.Some?) &&
    (step.MarkAgain? ==> Mark(h.now, step.action) in h.marks)
  }

  function Next(c: Config, h: Host, step: Step): Host
    requires Legal(h, step)
  {
    var g := h.(now := TurnOf(h, step));
    match step
    case Observe(o) =>
      g.(c := Observed(c, h.c, o).0, seen := if Accepted(c, o) then h.seen + [o] else h.seen)
    case TurnStart(turn) => g.(c := TurnStarted(h.c, turn))
    case Decide(turn, snapshot) =>
      var action := Decided(c, h.c, turn, snapshot).action;
      if action == NoIntervention then g else g.(pending := Some(action))
    case MarkApplied => g.(c := Marked(h.c, h.now, h.pending.value), pending := None,
                           marks := h.marks + [Mark(h.now, h.pending.value)])
    case DropAction => g.(pending := None)
    case MarkAgain(action) => g.(c := Marked(h.c, h.now, action))
    case ReplayFailed(turn) => g.(c := h.c.(replayDisabled := Some(turn)))
  }

  ghost predicate IsRun(c: Config, run: seq<Host>, steps: seq<Step>) {
    |run| == |steps| + 1 && run[0] == START &&
    forall k {:trigger steps[k]} :: 0 <= k < |steps| ==> Legal(run[k], steps[k]) && run[k + 1] == Next(c, run[k], steps[k])
  }

  ghost predicate OnOwnObservation(c: Config, h: Host, step: Step) {
    step.Decide? && Decided(c, h.c, step.turn, step.snapshot).action != NoIntervention ==> !IsNewTurn(h.c, step.turn)
  }

  /** Every decision to intervene is taken when its own turn was observed last. A snapshot the host
      altered before deciding still counts: only the turn of the last observation matters. */
  ghost predicate OwnObservations(c: Config, run: seq<Host>, steps: seq<Step>)
    requires |run| == |steps| + 1
  {
    forall k {:trigger steps[k]} :: 0 <= k < |steps| ==> OnOwnObservation(c, run[k], steps[k])
  }

  /** Each intervention is decided exactly under these conditions. */
  lemma InterventionIff(c: Config, s: State, turn: nat, snapshot: Option<Snapshot>)
    ensures var action := Decided(c, s, turn, snapshot).action;
            var ready := c.enabled && snapshot.Some? && turn >= c.minTurns && s.applied != Some(turn);
            (action == TargetedContextRefresh <==>
               ready && snapshot.value.band == Medium &&
               (s.lastRefresh.Some? ==> turn > s.lastRefresh.value + c.refreshCooldown)) &&
            (action == VerifyWithToolReplay <==>
               ready && snapshot.value.band == High && !snapshot.value.severe &&
               s.replayDisabled != Some(turn) && s.replayCount < c.maxReplayPerTurn) &&
            (action == VerifyAndReplan <==>
               ready && snapshot.value.band == High && snapshot.value.severe &&
               (s.lastReplan.Some? ==> turn > s.lastReplan.value + c.replanCooldown))
  {}

  /** What the policy would do if nothing held it back. */
  lemma PolicyIs(snapshot: Snapshot)
    ensures Policy(snapshot) == NoIntervention <==> snapshot.band == Low
    ensures Policy(snapshot) == TargetedContextRefresh <==> snapshot.band == Medium
    ensures Policy(snapshot) == VerifyAndReplan <==> snapshot.band == High && snapshot.severe
    ensures Policy(snapshot) == VerifyWithToolReplay <==> snapshot.band == High && !snapshot.severe
  {}

  /** A decision is flagged iff the policy proposed an action and it was held back: by an intervention in
      the same turn, by its cooldown, or by a limit of replays. A blocked action is never replaced by
      a lesser one, and what is decided unflagged is what the policy proposed. */
  lemma BlockedFailsOpen(c: Config, s: State, turn: nat, snapshot: Option<Snapshot>)
    ensures var d := Decided(c, s, turn, snapshot);
            (d.cooldownBlocked <==>
               c.enabled && snapshot.Some? && turn >= c.minTurns && snapshot.value.band != Low && d.action == NoIntervention) &&
            (d.action != NoIntervention ==> snapshot.Some? && d.action == Policy(snapshot.value)) &&
            (d.cooldownBlocked && s.applied != Some(turn) ==>
               match Policy(snapshot.value)
               case TargetedContextRefresh => s.lastRefresh.Some? && turn <= s.lastRefresh.value + c.refreshCooldown
               case VerifyAndReplan => s.lastReplan.Some? && turn <= s.lastReplan.value + c.replanCooldown
               case VerifyWithToolReplay => s.replayDisabled == Some(turn) || s.replayCount >= c.maxReplayPerTurn
               case NoIntervention => false)
  {}

  /** The reason given for each decision that nothing blocked. */
  lemma ReasonIs(c: Config, s: State, turn: nat, snapshot: Option<Snapshot>)
    ensures var d := Decided(c, s, turn, snapshot);
            (!c.enabled ==> d.reason == "capacity_controller_disabled") &&
            (c.enabled && snapshot.None? ==> d.reason == "missing_capacity_data_fail_open") &&
            (c.enabled && snapshot.Some? && turn < c.minTurns ==> d.reason == "min_turns_before_guardrail_not_reached") &&
            (c.enabled && snapshot.Some? && turn >= c.minTurns && snapshot.value.band == Low ==> d.reason == "low_risk_no_intervention") &&
            (d.action != NoIntervention ==> d.reason == "policy_selected_action")
  {}

  /** And for each that something did. */
  lemma BlockedReasonIs(c: Config, s: State, turn: nat, snapshot: Option<Snapshot>)
    requires Decided(c, s, turn, snapshot).cooldownBlocked
    ensures Decided(c, s, turn, snapshot).reason ==
            if s.applied == Some(turn) then "intervention_already_applied_this_turn"
            else if snapshot.value.band == Medium then "refresh_cooldown_active"
            else if snapshot.value.severe then "replan_cooldown_active"
            else if s.replayDisabled == Some(turn) then "replay_disabled_for_turn"
            else "max_replay_per_turn_reached"
  {}

  // ----- The window ------------------------------------------------------------------------------

  lemma LastKOfMore<T>(s: seq<T>, x: T, n: nat)
    ensures LastK(n, LastK(n, s) + [x]) == LastK(n, s + [x])
  {}

  function Slacks(seen: seq<Observation>): (s: seq<real>)
    ensures |s| == |seen| && forall i :: 0 <= i < |seen| ==> s[i] == seen[i].slack
  {
    seq(|seen|, i requires 0 <= i < |seen| => seen[i].slack)
  }

  function Tools(seen: seq<Observation>): (s: seq<nat>)
    ensures |s| == |seen| && forall i :: 0 <= i < |seen| ==> s[i] == seen[i].tools
  {
    seq(|seen|, i requires 0 <= i < |seen| => seen[i].tools)
  }

  function Refs(seen: seq<Observation>): (s: seq<nat>)
    ensures |s| == |seen| && forall i :: 0 <= i < |seen| ==> s[i] == seen[i].refs
  {
    seq(|seen|, i requires 0 <= i < |seen| => seen[i].refs)
  }

  /** The three windows hold what the last accepted observations said. */
  ghost predicate WindowsHold(c: Config, s: State, seen: seq<Observation>) {
    s.slackWindow == LastK(c.profileWindow, Slacks(seen)) &&
    s.toolCounts == LastK(c.profileWindow, Tools(seen)) &&
    s.refCounts == LastK(c.profileWindow, Refs(seen))
  }

  lemma PushKeepsWindows(c: Config, s: State, o: Observation, seen: seq<Observation>)
    requires WindowsHold(c, s, seen)
    ensures WindowsHold(c, Pushed(c, s, o), seen + [o])
  {
    LastKOfMore(Slacks(seen), o.slack, c.profileWindow);
    LastKOfMore(Tools(seen), o.tools, c.profileWindow);
    LastKOfMore(Refs(seen), o.refs, c.profileWindow);
    assert Slacks(seen + [o]) == Slacks(seen) + [o.slack];
    assert Tools(seen + [o]) == Tools(seen) + [o.tools];
    assert Refs(seen + [o]) == Refs(seen) + [o.refs];
  }

  lemma StepKeepsWindows(c: Config, h: Host, step: Step)
    requires Legal(h, step) && WindowsHold(c, h.c, h.seen)
    ensures WindowsHold(c, Next(c, h, step).c, Next(c, h, step).seen)
  {
    if step.Observe? && Accepted(c, step.o) {
      PushKeepsWindows(c, TurnStarted(h.c, step.o.turn), step.o, h.seen);
    }
  }

  lemma {:induction false} RunKeepsWindows(c: Config, run: seq<Host>, steps: seq<Step>, k: nat)
    requires IsRun(c, run, steps) && k < |run|
    ensures WindowsHold(c, run[k].c, run[k].seen)
  {
    if k > 0 {
      RunKeepsWindows(c, run, steps, k - 1);
      StepKeepsWindows(c, run[k - 1], steps[k - 1]);
    }
  }

  /** In every run the three windows hold the slack and the counts of the last `profileWindow` accepted
      observations. */
  lemma WindowIsLastObservations(c: Config, run: seq<Host>, steps: seq<Step>, k: nat)
    requires IsRun(c, run, steps) && k < |run|
    ensures run[k].c.slackWindow == LastK(c.profileWindow, Slacks(run[k].seen))
    ensures run[k].c.toolCounts == LastK(c.profileWindow, Tools(run[k].seen))
    ensures run[k].c.refCounts == LastK(c.profileWindow, Refs(run[k].seen))
  {
    RunKeepsWindows(c, run, steps, k);
  }

  /** What an observation makes of the controller: rejected ones leave windows and snapshot alone, and do
      nothing at all if the controller is off or the ratio is garbage; an accepted one takes a snapshot of the
      window with it, severe iff some value in it is too low or too many are at or below zero. */
  lemma SnapshotIs(c: Config, s: State, o: Observation)
    ensures var (t, snapshot) := Observed(c, s, o);
            if !c.enabled || !o.ratioFinite then t == s && snapshot == None
            else if !o.priorFinite then
              snapshot == None && t.slackWindow == s.slackWindow && t.toolCounts == s.toolCounts &&
              t.refCounts == s.refCounts && t.lastSnapshot == s.lastSnapshot
            else
              var w := LastK(c.profileWindow, s.slackWindow + [o.slack]);
              snapshot.Some? && t.lastSnapshot == snapshot && t.slackWindow == w &&
              snapshot.value.turn == o.turn && snapshot.value.slack == o.slack &&
              snapshot.value.profile == ProfileOf(w, c.root) && snapshot.value.band == c.riskBand(ProfileOf(w, c.root)) &&
              (snapshot.value.severe <==>
                 (exists x :: x in w && x <= c.severeMinSlack) || ProfileOf(w, c.root).violationRatio >= c.severeViolationRatio)
  {
    var w := LastK(c.profileWindow, s.slackWindow + [o.slack]);
    if w != [] {
      MinimumIsLeast(w);
    }
  }

  /** The per-turn memory is forgotten iff another turn, or none, was observed last; the rest is kept. */
  lemma TurnStartedIs(s: State, turn: nat)
    ensures var t := TurnStarted(s, turn);
            (s.lastSnapshot.Some? && s.lastSnapshot.value.turn == turn ==> t == s) &&
            (s.lastSnapshot.None? || s.lastSnapshot.value.turn != turn ==>
               t == s.(replayCount := 0, replayDisabled := None, applied := None))
  {}

  /** A mark blocks its turn, and is remembered by its own action's limit only. */
  lemma MarkedIs(s: State, turn: nat, action: Action)
    ensures var t := Marked(s, turn, action);
            t.applied == Some(turn) &&
            t.lastRefresh == (if action == TargetedContextRefresh then Some(turn) else s.lastRefresh) &&
            t.replayCount == s.replayCount + (if action == VerifyWithToolReplay then 1 else 0) &&
            t.lastReplan == (if action == VerifyAndReplan then Some(turn) else s.lastReplan) &&
            t == s.(applied := t.applied, lastRefresh := t.lastRefresh, replayCount := t.replayCount, lastReplan := t.lastReplan)
  {}

  // ----- Cooldowns --------------------------------------------------------------------------------

  /** The controller's memory of the last action of a kind is the last such mark. */
  ghost predicate Remembers(marks: seq<Mark>, action: Action, last: Option<nat>, now: nat) {
    forall i :: 0 <= i < |marks| && marks[i].action == action ==> last.Some? && marks[i].turn <= last.value <= now
  }

  ghost predicate Spaced(marks: seq<Mark>, action: Action, cooldown: nat) {
    forall i, j :: 0 <= i < j < |marks| && marks[i].action == action && marks[j].action == action ==>
      marks[j].turn > marks[i].turn + cooldown
  }

  ghost predicate CooldownInv(c: Config, h: Host) {
    Remembers(h.marks, TargetedContextRefresh, h.c.lastRefresh, h.now) &&
    Remembers(h.marks, VerifyAndReplan, h.c.lastReplan, h.now) &&
    Spaced(h.marks, TargetedContextRefresh, c.refreshCooldown) &&
    Spaced(h.marks, VerifyAndReplan, c.replanCooldown) &&
    (h.pending == Some(TargetedContextRefresh) ==> !CoolingDown(h.c.lastRefresh, c.refreshCooldown, h.now)) &&
    (h.pending == Some(VerifyAndReplan) ==> !CoolingDown(h.c.lastReplan, c.replanCooldown, h.now))
  }

  lemma MarkKeepsCooldown(c: Config, h: Host)
    requires CooldownInv(c, h) && Legal(h, MarkApplied)
    ensures CooldownInv(c, Next(c, h, MarkApplied))
  {}

  /** Marking an intervention again changes no cooldown: its turn is remembered already. */
  lemma MarkingAgainKeepsCooldown(c: Config, h: Host, action: Action)
    requires CooldownInv(c, h) && Legal(h, MarkAgain(action))
    ensures var g := Next(c, h, MarkAgain(action));
            CooldownInv(c, g) && g.c.lastRefresh == h.c.lastRefresh && g.c.lastReplan == h.c.lastReplan && g.marks == h.marks
  {
    var i :| 0 <= i < |h.marks| && h.marks[i] == Mark(h.now, action);
  }

  /** No step but a mark touches what the controller remembers. */
  lemma OtherStepsKeepMemory(c: Config, h: Host, step: Step)
    requires Legal(h, step) && !step.MarkApplied? && !step.MarkAgain?
    ensures var g := Next(c, h, step);
            g.c.lastRefresh == h.c.lastRefresh && g.c.lastReplan == h.c.lastReplan && g.marks == h.marks && g.now >= h.now
  {}

  lemma DecisionRespectsCooldown(c: Config, s: State, turn: nat, snapshot: Option<Snapshot>)
    ensures var action := Decided(c, s, turn, snapshot).action;
            (action == TargetedContextRefresh ==> !CoolingDown(s.lastRefresh, c.refreshCooldown, turn)) &&
            (action == VerifyAndReplan ==> !CoolingDown(s.lastReplan, c.replanCooldown, turn))
  {}

  lemma StepKeepsCooldown(c: Config, h: Host, step: Step)
    requires CooldownInv(c, h) && Legal(h, step)
    ensures CooldownInv(c, Next(c, h, step))
  {
    if step.MarkApplied? {
      MarkKeepsCooldown(c, h);
    } else if step.MarkAgain? {
      MarkingAgainKeepsCooldown(c, h, step.action);
    } else {
      OtherStepsKeepMemory(c, h, step);
      if step.Decide? {
        DecisionRespectsCooldown(c, h.c, step.turn, step.snapshot);
      }
    }
  }

  lemma {:induction false} RunKeepsCooldown(c: Config, run: seq<Host>, steps: seq<Step>, k: nat)
    requires IsRun(c, run, steps) && k < |run|
    ensures CooldownInv(c, run[k])
  {
    if k > 0 {
      RunKeepsCooldown(c, run, steps, k - 1);
      StepKeepsCooldown(c, run[k - 1], steps[k - 1]);
    }
  }

  /** In every run, whatever the order of turn starts and observations and whatever snapshots the
      host decides on, two refreshes are more than the refresh cooldown apart, and two replans
      more than the replan cooldown. */
  lemma CooldownsHold(c: Config, run: seq<Host>, steps: seq<Step>, k: nat, i: nat, j: nat)
    requires IsRun(c, run, steps) && k < |run| && i < j < |run[k].marks|
    ensures var (m, n) := (run[k].marks[i], run[k].marks[j]);
            (m.action == n.action == TargetedContextRefresh ==> n.turn > m.turn + c.refreshCooldown) &&
            (m.action == n.action == VerifyAndReplan ==> n.turn > m.turn + c.replanCooldown)
  {
    RunKeepsCooldown(c, run, steps, k);
  }

  // ----- One intervention per turn -----------------------------------------------------------------

  ghost predicate Ascending(marks: seq<Mark>) {
    forall i, j :: 0 <= i < j < |marks| ==> marks[i].turn < marks[j].turn
  }

  /** A turn with a mark has its own observation and stays blocked; a pending action is the first
      of its turn. */
  ghost predicate OnceInv(h: Host) {
    Ascending(h.marks) &&
    (forall i :: 0 <= i < |h.marks| ==> h.marks[i].turn <= h.now) &&
    (h.marks != [] && h.marks[|h.marks| - 1].turn == h.now ==>
       h.pending.None? && h.c.applied == Some(h.now) && !IsNewTurn(h.c, h.now)) &&
    (h.pending.Some? ==> !IsNewTurn(h.c, h.now))
  }

  /** An observation of the turn already observed resets nothing. */
  lemma ObservingKeepsBlock(c: Config, s: State, o: Observation)
    ensures !IsNewTurn(s, o.turn) ==> Observed(c, s, o).0.applied == s.applied && !IsNewTurn(Observed(c, s, o).0, o.turn)
  {}

  lemma MarkingAgainKeepsOnce(c: Config, h: Host, action: Action)
    requires OnceInv(h) && Legal(h, MarkAgain(action))
    ensures OnceInv(Next(c, h, MarkAgain(action)))
  {
    var i :| 0 <= i < |h.marks| && h.marks[i] == Mark(h.now, action);
    assert i == |h.marks| - 1;
  }

  lemma StepKeepsOnce(c: Config, h: Host, step: Step)
    requires OnceInv(h) && Legal(h, step) && OnOwnObservation(c, h, step)
    ensures OnceInv(Next(c, h, step))
  {
    if !step.MarkApplied? && !step.MarkAgain? {
      OtherStepsKeepMemory(c, h, step);
    }
    match step
    case Observe(o) => ObservingKeepsBlock(c, h.c, o);
    case TurnStart(_) =>
    case Decide(_, _) =>
    case MarkApplied =>
    case DropAction =>
    case MarkAgain(action) => MarkingAgainKeepsOnce(c, h, action);
    case ReplayFailed(_) =>
  }

  lemma {:induction false} RunKeepsOnce(c: Config, run: seq<Host>, steps: seq<Step>, k: nat)
    requires IsRun(c, run, steps) && OwnObservations(c, run, steps) && k < |run|
    ensures OnceInv(run[k])
  {
    if k > 0 {
      RunKeepsOnce(c, run, steps, k - 1);
      StepKeepsOnce(c, run[k - 1], steps[k - 1]);
    }
  }

  /** When the host intervenes only on observations of the current turn, no turn has two interventions. */
  lemma OneInterventionPerTurn(c: Config, run: seq<Host>, steps: seq<Step>, k: nat, i: nat, j: nat)
    requires IsRun(c, run, steps) && OwnObservations(c, run, steps)
    requires k < |run| && i < |run[k].marks| && j < |run[k].marks| && run[k].marks[i].turn == run[k].marks[j].turn
    ensures i == j
  {
    RunKeepsOnce(c, run, steps, k);
  }

  // ----- Exactly when a mark blocks its turn ----------------------------------------------------

  /** What may happen in a turn besides decisions and marks. */
  predicate InTurn(step: Step, turn: nat) {
    match step
    case Observe(o) => o.turn == turn
    case TurnStart(t) => t == turn
    case ReplayFailed(t) => t == turn
    case _ => false
  }

  function AfterStep(c: Config, s: State, step: Step): State {
    match step
    case Observe(o) => Observed(c, s, o).0
    case TurnStart(turn) => TurnStarted(s, turn)
    case ReplayFailed(turn) => s.(replayDisabled := Some(turn))
    case _ => s
  }

  function AfterSteps(c: Config, s: State, steps: seq<Step>): State {
    if steps == [] then s else AfterStep(c, AfterSteps(c, s, steps[..|steps| - 1]), steps[|steps| - 1])
  }

  lemma AfterOneStep(c: Config, s: State, step: Step)
    ensures AfterSteps(c, s, [step]) == AfterStep(c, s, step)
  {
    assert [step][..0] == [];
  }

  /** Whatever else happens in the turn, no decision in it intervenes. */
  ghost predicate BlockedForTurn(c: Config, s: State, turn: nat) {
    forall steps, snapshot :: (forall step :: step in steps ==> InTurn(step, turn)) ==>
      Decided(c, AfterSteps(c, s, steps), turn, snapshot).action == NoIntervention
  }

  predicate AllSpent(c: Config, s: State, turn: nat) {
    c.maxReplayPerTurn == 0 && CoolingDown(s.lastRefresh, c.refreshCooldown, turn) && CoolingDown(s.lastReplan, c.replanCooldown, turn)
  }

  /** Nothing can be decided: the controller is off or not yet on, or the turn was observed and
      marked, or all three actions are barred by their own limits. */
  predicate Barred(c: Config, s: State, turn: nat) {
    !c.enabled || turn < c.minTurns || (s.applied == Some(turn) && !IsNewTurn(s, turn)) || AllSpent(c, s, turn)
  }

  lemma StepKeepsBar(c: Config, s: State, turn: nat, step: Step)
    requires Barred(c, s, turn) && InTurn(step, turn)
    ensures Barred(c, AfterStep(c, s, step), turn)
  {
    if step.Observe? {
      ObservingKeepsBlock(c, s, step.o);
    }
  }

  lemma {:induction false} StepsKeepBar(c: Config, s: State, turn: nat, steps: seq<Step>)
    requires Barred(c, s, turn) && forall step :: step in steps ==> InTurn(step, turn)
    ensures Barred(c, AfterSteps(c, s, steps), turn)
  {
    if steps != [] {
      StepsKeepBar(c, s, turn, steps[..|steps| - 1]);
      StepKeepsBar(c, AfterSteps(c, s, steps[..|steps| - 1]), turn, steps[|steps| - 1]);
    }
  }

  lemma BarredDecidesNothing(c: Config, s: State, turn: nat, snapshot: Option<Snapshot>)
    requires Barred(c, s, turn)
    ensures Decided(c, s, turn, snapshot).action == NoIntervention
  {}

  /** A snapshot that intervenes where nothing was applied and some action is left. */
  lemma SomethingIsDecided(c: Config, s: State, turn: nat) returns (snapshot: Option<Snapshot>)
    requires c.enabled && turn >= c.minTurns && !AllSpent(c, s, turn) && s == ResetPerTurn(s)
    ensures Decided(c, s, turn, snapshot).action != NoIntervention
  {
    var band := if c.maxReplayPerTurn == 0 && !CoolingDown(s.lastRefresh, c.refreshCooldown, turn) then Medium else High;
    snapshot := Some(Snapshot(turn, 0.0, EMPTY_PROFILE, band, c.maxReplayPerTurn == 0));
  }

  /** An intervention just marked blocks the rest of its turn iff the last observation was of that
      turn, or nothing could be decided anyway. Otherwise a turn start or an observation forgets it,
      and the next high-risk snapshot intervenes again. */
  lemma MarkBlocksTurnIff(c: Config, s: State, turn: nat, action: Action)
    ensures var m := Marked(s, turn, action);
            BlockedForTurn(c, m, turn) <==> !c.enabled || turn < c.minTurns || !IsNewTurn(s, turn) || AllSpent(c, m, turn)
  {
    var m := Marked(s, turn, action);
    if Barred(c, m, turn) {
      forall steps, snapshot | forall step :: step in steps ==> InTurn(step, turn)
        ensures Decided(c, AfterSteps(c, m, steps), turn, snapshot).action == NoIntervention
      {
        StepsKeepBar(c, m, turn, steps);
        BarredDecidesNothing(c, AfterSteps(c, m, steps), turn, snapshot);
      }
    } else {
      var steps := [TurnStart(turn)];
      var next := AfterSteps(c, m, steps);
      AfterOneStep(c, m, TurnStart(turn));
      var snapshot := SomethingIsDecided(c, next, turn);
      assert Decided(c, AfterSteps(c, m, steps), turn, snapshot).action != NoIntervention;
    }
  }

  lemma RunExtends(c: Config, run: seq<Host>, steps: seq<Step>, step: Step)
    requires IsRun(c, run, steps) && Legal(run[|run| - 1], step)
    ensures IsRun(c, run + [Next(c, run[|run| - 1], step)], steps + [step])
  {
    var longer, more := run + [Next(c, run[|run| - 1], step)], steps + [step];
    forall k | 0 <= k < |more| ensures Legal(longer[k], more[k]) && longer[k + 1] == Next(c, longer[k], more[k]) {
      assert k < |steps| ==> more[k] == steps[k];
    }
  }

  /** A turn not yet observed in which the host forced a replan on the snapshot of an earlier one. */
  ghost predicate ForcedOnStale(c: Config, h: Host, before: Observation, turn: nat) {
    h.now == turn && h.pending == None && h.marks == [Mark(turn, VerifyAndReplan)] && IsNewTurn(h.c, turn) &&
    h.c.slackWindow == LastK(c.profileWindow, [before.slack]) && h.c.lastRefresh == None
  }

  /** The controller after the first observation of all. */
  lemma FirstObservation(c: Config, o: Observation)
    requires Accepted(c, o)
    ensures Legal(START, Observe(o))
    ensures var h := Next(c, START, Observe(o));
            h.now == o.turn && h.pending == None && h.marks == [] && h.c.slackWindow == LastK(c.profileWindow, [o.slack]) &&
            h.c.lastSnapshot.Some? && h.c.lastSnapshot.value.turn == o.turn &&
            h.c.applied == h.c.lastRefresh == h.c.lastReplan == None
  {
    assert [] + [o.slack] == [o.slack];
  }

  /** A decision to intervene and its mark. */
  lemma Intervenes(c: Config, run: seq<Host>, steps: seq<Step>, turn: nat, snapshot: Option<Snapshot>, action: Action)
    returns (longer: seq<Host>, more: seq<Step>)
    requires IsRun(c, run, steps) && run[|run| - 1].now <= turn && run[|run| - 1].pending == None
    requires Decided(c, run[|run| - 1].c, turn, snapshot).action == action && action != NoIntervention
    ensures IsRun(c, longer, more)
    ensures var h, g := run[|run| - 1], longer[|longer| - 1];
            g.now == turn && g.pending == None && g.marks == h.marks + [Mark(turn, action)] && g.c == Marked(h.c, turn, action)
  {
    var decide := Decide(turn, snapshot);
    var d := Next(c, run[|run| - 1], decide);
    RunExtends(c, run, steps, decide);
    longer, more := run + [d], steps + [decide];
    RunExtends(c, longer, more, MarkApplied);
    longer, more := longer + [Next(c, d, MarkApplied)], more + [MarkApplied];
  }

  lemma ForcesOnStale(c: Config, before: Observation, turn: nat) returns (run: seq<Host>, steps: seq<Step>)
    requires Accepted(c, before) && before.turn < turn && c.minTurns <= turn
    ensures IsRun(c, run, steps) && ForcedOnStale(c, run[|run| - 1], before, turn)
  {
    var h := Next(c, START, Observe(before));
    FirstObservation(c, before);
    var forced := Some(h.c.lastSnapshot.value.(band := High, severe := true));
    InterventionIff(c, h.c, turn, forced);
    run, steps := [START, h], [Observe(before)];
    run, steps := Intervenes(c, run, steps, turn, forced, VerifyAndReplan);
  }

  lemma RefreshesAfterForce(c: Config, h: Host, before: Observation, own: Observation)
    requires ForcedOnStale(c, h, before, own.turn) && Accepted(c, own) && c.minTurns <= own.turn
    requires c.riskBand(ProfileOf(LastK(c.profileWindow, LastK(c.profileWindow, [before.slack]) + [own.slack]), c.root)) == Medium
    ensures Legal(h, Observe(own))
    ensures var g := Next(c, h, Observe(own));
            g.now == own.turn && g.pending == None && g.marks == h.marks &&
            Decided(c, g.c, own.turn, g.c.lastSnapshot).action == TargetedContextRefresh
  {
    var g := Next(c, h, Observe(own));
    InterventionIff(c, g.c, own.turn, g.c.lastSnapshot);
  }

  /** A run with two interventions in one turn: in a turn not yet observed the host forces a replan on
      an earlier snapshot and marks it; the turn's own observation forgets that, and its medium risk
      refreshes too. */
  lemma StaleSnapshotIntervenesTwice(c: Config, before: Observation, own: Observation) returns (run: seq<Host>, steps: seq<Step>)
    requires Accepted(c, before) && Accepted(c, own) && before.turn < own.turn && c.minTurns <= own.turn
    requires c.riskBand(ProfileOf(LastK(c.profileWindow, LastK(c.profileWindow, [before.slack]) + [own.slack]), c.root)) == Medium
    ensures IsRun(c, run, steps)
    ensures run[|run| - 1].marks == [Mark(own.turn, VerifyAndReplan), Mark(own.turn, TargetedContextRefresh)]
  {
    run, steps := ForcesOnStale(c, before, own.turn);
    var g := Next(c, run[|run| - 1], Observe(own));
    RefreshesAfterForce(c, run[|run| - 1], before, own);
    RunExtends(c, run, steps, Observe(own));
    run, steps := run + [g], steps + [Observe(own)];
    run, steps := Intervenes(c, run, steps, own.turn, g.c.lastSnapshot, TargetedContextRefresh);
  }
}
