/** What the governor guarantees over whole runs: emergencies reach the floor, fallback never raises a limit, recovery
    is rate limited, and the thermal rule always bites. */
module GovernorRuns {
  import opened Options
  import opened Governor
  import opened GovernorLoop

  // ----- Emergencies

  /** One emergency sample without a failed readback commands at most the floor. */
  lemma EmergencySampleReachesFloor(s: GovState, x: Sample, readback: Readback, g: Config, now: real)
    requires g.Sound() && g.mode == Dynamic && x.AtEmergency(g) && readback != Mismatch
    ensures var e := Step(s, x, readback, g, now).s; e.pl1.Some? && e.pl1.value <= g.Floor()
  {
    var w := Work(s.(lastValid := Some(now)), []);
    var a := if readback == Verified && s.phase != FALLBACK then w.(s := w.s.(backoffS := 0.0)) else w;
    var waiting := a.s.phase == FALLBACK && a.s.retryAt.Some?;
    if !(waiting && now < a.s.retryAt.value) {
      var b := if waiting then a.(s := a.s.(retryAt := None)).Emit(Retry) else a;
      EmergencyDynamic(b, x.pkgC, g, a.s.phase in {OFF, FALLBACK}, now);
    }
  }

  lemma EmergencyDynamic(w: Work, temp: Option<real>, g: Config, force: bool, now: real)
    ensures StepDynamic(w, Emergency, temp, g, force, now).s.pl1 == Some(w.s.Cap1(g.Floor()))
  {
    var (t, ceiling) := Thermal(w, temp, g.Floor(), w.s.Top(g), g, now);
    assert t.s.fwPl1 == w.s.fwPl1;
  }

  /** At the floor, an emergency sample never lifts the limit, whatever the readback. */
  lemma EmergencySampleKeepsFloor(s: GovState, x: Sample, readback: Readback, g: Config, now: real)
    requires g.Sound() && g.mode == Dynamic && x.AtEmergency(g) && s.pl1.Some? && s.pl1.value <= g.Floor()
    ensures var e := Step(s, x, readback, g, now).s; e.pl1.Some? && e.pl1.value <= g.Floor()
  {
    if readback != Mismatch {
      EmergencySampleReachesFloor(s, x, readback, g, now);
    }
  }

  lemma TickGov(l: Loop, i: Input)
    ensures Tick(l, i).gov == Step(l.gov, i.sample, l.readback, i.config, i.now).s
  {
    var w := Step(l.gov, i.sample, l.readback, i.config, i.now);
    ApplyKeepsGov(l.(gov := w.s, readback := NoReadback), w.actions, i.outcome);
  }

  /** A second failed readback in FALLBACK writes nothing, so the tick after it has no readback to fail. */
  lemma FallbackMismatchIsSilent(l: Loop, i: Input)
    requires l.readback == Mismatch && l.gov.phase == FALLBACK && i.config.mode != Off
    ensures Tick(l, i).readback == NoReadback && Tick(l, i).gov.phase == FALLBACK
  {
    var w := Step(l.gov, i.sample, l.readback, i.config, i.now);
    var mid := l.(gov := w.s, readback := NoReadback);
    assert w.actions == [RetryScheduled(w.s.backoffS)];
    assert w.actions[1..] == [];
    assert ApplyActions(mid, w.actions, i.outcome) == ApplyActions(mid, [], i.outcome);
  }

  /** From any state of the loop and whatever the hardware does, three consecutive emergency samples bring the
      commanded PL1 to the floor. */
  lemma ThreeEmergencySamples(l: Loop, i1: Input, i2: Input, i3: Input, g: Config)
    requires g.Sound() && g.mode == Dynamic && i1.config == i2.config == i3.config == g
    requires i1.sample.AtEmergency(g) && i2.sample.AtEmergency(g) && i3.sample.AtEmergency(g)
    ensures var e := Tick(Tick(Tick(l, i1), i2), i3).gov; e.pl1.Some? && e.pl1.value <= g.Floor()
  {
    var l1 := Tick(l, i1);
    var l2 := Tick(l1, i2);
    TickGov(l, i1);
    TickGov(l1, i2);
    TickGov(l2, i3);
    if l.readback != Mismatch {
      EmergencySampleReachesFloor(l.gov, i1.sample, l.readback, g, i1.now);
      EmergencySampleKeepsFloor(l1.gov, i2.sample, l1.readback, g, i2.now);
      EmergencySampleKeepsFloor(l2.gov, i3.sample, l2.readback, g, i3.now);
    } else {
      FailedReadbackFallsBack(l, i1);
      if l1.readback != Mismatch {
        EmergencySampleReachesFloor(l1.gov, i2.sample, l1.readback, g, i2.now);
        EmergencySampleKeepsFloor(l2.gov, i3.sample, l2.readback, g, i3.now);
      } else {
        FallbackMismatchIsSilent(l1, i2);
        EmergencySampleReachesFloor(l2.gov, i3.sample, l2.readback, g, i3.now);
      }
    }
  }

  // ----- Invariants of a fixed-configuration dynamic run

  /** Firmware limits at or above the floor. */
  predicate FirmwareOk(s: GovState, g: Config) { OrMax(s.fwPl1) >= g.Floor() }

  ghost predicate DynamicState(s: GovState, g: Config) {
    && FirmwareOk(s, g) && s.phase != STATIC && (s.phase == OFF <==> s.pl1.None?)
    && (s.pl1.Some? ==> g.Floor() <= s.pl1.value <= s.Top(g))
    && (s.phase == FALLBACK ==> s.belowRecoverSince.None?)
    && (s.thermalCap.Some? ==>
        s.pl1.Some? && s.pl1.value <= s.thermalCap.value && g.Floor() <= s.thermalCap.value < s.Top(g))
  }

  /** The limit went up by at most one recovery step, at least one interval after the previous recovery or calm start.
      */
  ghost predicate Raised(s: GovState, e: GovState, g: Config, now: real) {
    && s.pl1.Some? && e.pl1.Some? && s.phase != FALLBACK && e.phase != FALLBACK
    && s.belowRecoverSince.Some? && now - s.belowRecoverSince.value >= g.recoverIntervalS
    && e.pl1.value <= s.pl1.value + g.recoverStepW && e.belowRecoverSince == Some(now)
  }

  /** What one step may do to the limit and to the recovery timer. */
  ghost predicate GoodMove(s: GovState, e: GovState, g: Config, now: real) {
    && e.pl1.Some?
    && (s.pl1.Some? ==> e.pl1.value <= s.pl1.value || Raised(s, e, g, now))
    && e.belowRecoverSince in {None, s.belowRecoverSince, Some(now)}
  }

  lemma RulesBounds(
    w: Work, level: Level, pl1: real, hold: Phase, floor: real, ceiling: real, top: real, g: Config, now: real)
    requires g.Sound() && floor <= pl1 <= ceiling <= top
    ensures var r := Rules(w, level, pl1, hold, floor, ceiling, top, g, now); var since := w.s.belowRecoverSince;
      && floor <= r.pl1 <= ceiling
      && r.w.s.belowRecoverSince in {None, since, Some(now)}
      && (r.pl1 <= pl1 ||
          (since.Some? && now - since.value >= g.recoverIntervalS && r.pl1 <= pl1 + g.recoverStepW
           && r.w.s.belowRecoverSince == Some(now)))
      && r.w.s == w.s.(belowShedSince := r.w.s.belowShedSince, belowRecoverSince := r.w.s.belowRecoverSince,
                       lastCut := r.w.s.lastCut)
  {
  }

  ghost predicate Trimmed(actions: seq<Action>) { exists a :: a in actions && a.ThermalTrim? }

  lemma ThermalBounds(w: Work, temp: Option<real>, floor: real, ceiling: real, g: Config, now: real)
    requires g.Sound() && floor <= ceiling && !Trimmed(w.actions)
    ensures var (t, cap) := Thermal(w, temp, floor, ceiling, g, now);
      && floor <= cap <= ceiling
      && t.s == w.s.(thermalCap := if cap < ceiling then Some(cap) else None, lastThermal := t.s.lastThermal)
      && (Trimmed(t.actions) && w.s.pl1.Some? ==> cap < w.s.pl1.value)
  {
  }

  lemma RulingBounds(t: Work, level: Level, ceiling: real, top: real, g: Config, now: real) returns (pl1: real)
    requires g.Sound() && g.Floor() <= ceiling <= top
    requires t.s.pl1.Some? ==> g.Floor() <= StartW(t, g) <= t.s.pl1.value
    ensures var r := DynamicRuling(t, level, ceiling, top, g, now); var since := t.s.belowRecoverSince;
      && g.Floor() <= r.pl1 <= ceiling && Running(r.phase)
      && (t.s.pl1.Some? ==> pl1 <= t.s.pl1.value)
      && r.w.s.belowRecoverSince in {None, since, Some(now)}
      && (r.pl1 <= pl1 ||
          (since.Some? && now - since.value >= g.recoverIntervalS && r.pl1 <= pl1 + g.recoverStepW
           && r.w.s.belowRecoverSince == Some(now)))
      && r.w.s.fwPl1 == t.s.fwPl1 && r.w.s.thermalCap == t.s.thermalCap
      && (Trimmed(r.w.actions) ==> Trimmed(t.actions))
  {
    var floor := g.Floor();
    pl1 := Min(Max(StartW(t, g), floor), ceiling);
    var hold := if !Resuming(t.s) then t.s.phase else if pl1 >= top then NORMAL else TRIM;
    RulesBounds(t, level, pl1, hold, floor, ceiling, top, g, now);
    RulesRunning(t, level, pl1, hold, floor, ceiling, top, g, now);
    OnlyThermalTrims(t, level, pl1, hold, floor, ceiling, top, g, now);
  }

  /** Nothing after the thermal rule emits a trim. */
  lemma OnlyThermalTrims(
    t: Work, level: Level, pl1: real, hold: Phase, floor: real, ceiling: real, top: real, g: Config, now: real)
    ensures Trimmed(Rules(t, level, pl1, hold, floor, ceiling, top, g, now).w.actions) ==> Trimmed(t.actions)
  {
    var r := Rules(t, level, pl1, hold, floor, ceiling, top, g, now);
    if r.w.actions != t.actions {
      assert r.w.actions == t.actions + [r.w.actions[|r.w.actions| - 1]];
    }
  }

  lemma FinishBounds(r: Ruling, g: Config, force: bool, now: real)
    ensures var v := FinishDynamic(r, g, force, now);
      && v.s == r.w.s.(phase := r.phase, pl1 := Some(r.w.s.Cap1(r.pl1)), pl2 := v.s.pl2, lastWrite := v.s.lastWrite)
      && (Trimmed(v.actions) ==> Trimmed(r.w.actions))
  {
  }

  /** What a dynamic step amounts to: `pl1` after the thermal ceiling, `final` after the rules. */
  ghost predicate DynamicSummary(
    s: GovState, e: GovState, ceiling: real, pl1: real, final: real, g: Config, now: real) {
    && e.fwPl1 == s.fwPl1 && Running(e.phase)
    && g.Floor() <= final <= ceiling <= s.Top(g) && e.pl1 == Some(s.Cap1(final))
    && e.thermalCap == (if ceiling < s.Top(g) then Some(ceiling) else None)
    && (s.pl1.Some? ==> pl1 <= s.pl1.value)
    && e.belowRecoverSince in {None, s.belowRecoverSince, Some(now)}
    && (final <= pl1 ||
        (s.belowRecoverSince.Some? && now - s.belowRecoverSince.value >= g.recoverIntervalS
         && final <= pl1 + g.recoverStepW && e.belowRecoverSince == Some(now)))
  }

  lemma SummaryMove(s: GovState, e: GovState, ceiling: real, pl1: real, final: real, g: Config, now: real)
    requires g.Sound() && DynamicState(s, g) && DynamicSummary(s, e, ceiling, pl1, final, g, now)
    ensures DynamicState(e, g) && GoodMove(s, e, g, now) && e.pl1.value <= ceiling
  {
  }

  lemma DynamicSummarized(w: Work, level: Level, temp: Option<real>, g: Config, force: bool, now: real)
    returns (ceiling: real, pl1: real, final: real)
    requires g.Sound() && DynamicState(w.s, g) && !Trimmed(w.actions)
    ensures var v := StepDynamic(w, level, temp, g, force, now);
      && DynamicSummary(w.s, v.s, ceiling, pl1, final, g, now)
      && (Trimmed(v.actions) && w.s.pl1.Some? ==> ceiling < w.s.pl1.value)
  {
    var top := w.s.Top(g);
    var (t, cap) := Thermal(w, temp, g.Floor(), top, g, now);
    ceiling := cap;
    ThermalBounds(w, temp, g.Floor(), top, g, now);
    assert StartW(t, g) == StartW(w, g);
    pl1 := RulingBounds(t, level, ceiling, top, g, now);
    var r := DynamicRuling(t, level, ceiling, top, g, now);
    final := r.pl1;
    FinishBounds(r, g, force || Resuming(t.s), now);
  }

  lemma DynamicMove(w: Work, level: Level, temp: Option<real>, g: Config, force: bool, now: real)
    requires g.Sound() && DynamicState(w.s, g) && !Trimmed(w.actions)
    ensures var v := StepDynamic(w, level, temp, g, force, now);
      && DynamicState(v.s, g) && GoodMove(w.s, v.s, g, now)
      && (Trimmed(v.actions) && w.s.pl1.Some? ==> v.s.pl1.value < w.s.pl1.value)
  {
    var ceiling, pl1, final := DynamicSummarized(w, level, temp, g, force, now);
    SummaryMove(w.s, StepDynamic(w, level, temp, g, force, now).s, ceiling, pl1, final, g, now);
  }

  lemma RulesRunning(
    w: Work, level: Level, pl1: real, hold: Phase, floor: real, ceiling: real, top: real, g: Config, now: real)
    requires Running(hold)
    ensures Running(Rules(w, level, pl1, hold, floor, ceiling, top, g, now).phase)
  {
  }

  // ----- Every step of a fixed-configuration dynamic run

  lemma CapInRange(s: GovState, g: Config, w: real)
    requires g.Sound() && FirmwareOk(s, g) && g.Floor() <= w
    ensures g.Floor() <= s.Cap1(w) <= w && (w <= Max(g.ceilingW, g.staticCapW) ==> s.Cap1(w) <= s.Top(g))
    ensures w <= s.Top(g) ==> s.Cap1(w) == w
  {
  }

  /** Entering, staying in or waiting in FALLBACK. */
  ghost predicate FallbackMove(s: GovState, e: GovState, g: Config) {
    && DynamicState(e, g) && e.pl1.Some? && (s.pl1.Some? ==> e.pl1.value <= s.pl1.value)
    && e.belowRecoverSince in {None, s.belowRecoverSince}
  }

  lemma FallbackIsMove(w: Work, g: Config, now: real)
    requires g.Sound() && DynamicState(w.s, g) && !Trimmed(w.actions)
    ensures var v := w.Fallback(g.staticCapW, now);
      FallbackMove(w.s, v.s, g) && v.s.phase == FALLBACK && !Trimmed(v.actions)
  {
    CapInRange(w.s, g, w.FallbackW(g.staticCapW));
  }

  lemma MismatchMove(w: Work, g: Config, now: real)
    requires g.Sound() && DynamicState(w.s, g) && w.actions == []
    ensures var v := StepReadbackFailed(w, g, now);
      FallbackMove(w.s, v.s, g) && v.s.phase == FALLBACK && !Trimmed(v.actions)
  {
    var b := NextBackoff(w.s.backoffS);
    var c := w.(s := w.s.(backoffS := b, retryAt := Some(now + b)));
    FallbackIsMove(c, g, now);
  }

  lemma WaitingMove(w: Work, x: Sample, g: Config, now: real)
    requires g.Sound() && DynamicState(w.s, g) && w.s.phase == FALLBACK && w.actions == []
    ensures var v := StepWaiting(w, x, g, now);
      FallbackMove(w.s, v.s, g) && v.s.phase == FALLBACK && !Trimmed(v.actions)
  {
    CapInRange(w.s, g, g.Floor());
  }

  lemma StaleMove(w: Work, g: Config, retried: bool, now: real)
    requires g.Sound() && DynamicState(w.s, g) && !Trimmed(w.actions)
    ensures var v := StepStale(w, g, retried, now);
      FallbackMove(w.s, v.s, g) && v.s.phase == FALLBACK && !Trimmed(v.actions)
  {
    if w.s.phase != FALLBACK {
      FallbackIsMove(w.(s := w.s.(retryAt := None)), g, now);
    } else {
      CapInRange(w.s, g, w.FallbackW(g.staticCapW));
    }
  }

  lemma LiveMove(a: Work, x: Sample, g: Config, now: real)
    requires g.Sound() && g.mode == Dynamic && DynamicState(a.s, g) && a.actions == []
    ensures var v := StepLive(a, x, g, now);
      && DynamicState(v.s, g) && GoodMove(a.s, v.s, g, now)
      && (Trimmed(v.actions) && a.s.pl1.Some? ==> v.s.pl1.value < a.s.pl1.value)
  {
    var waiting := a.s.phase == FALLBACK && a.s.retryAt.Some?;
    if waiting && now < a.s.retryAt.value {
      WaitingMove(a, x, g, now);
    } else {
      var b := if waiting then a.(s := a.s.(retryAt := None)).Emit(Retry) else a;
      assert !Trimmed(b.actions);
      StaleMove(b, g, waiting, now);
      DynamicMove(b, x.Level(g), x.pkgC, g, a.s.phase in {OFF, FALLBACK}, now);
    }
  }

  /** One step: the limit stays between the floor and the top and under the thermal cap; only a recovery outside
      FALLBACK raises it; a thermal trim lowers it strictly. */
  lemma StepMove(s: GovState, x: Sample, readback: Readback, g: Config, now: real)
    requires g.Sound() && g.mode == Dynamic && DynamicState(s, g)
    ensures var w := Step(s, x, readback, g, now);
      && DynamicState(w.s, g) && GoodMove(s, w.s, g, now)
      && (s.pl1.Some? && (s.phase == FALLBACK || w.s.phase == FALLBACK) ==> w.s.pl1.value <= s.pl1.value)
      && (Trimmed(w.actions) && s.pl1.Some? ==> w.s.pl1.value < s.pl1.value)
  {
    var w := Work(if x.Valid() then s.(lastValid := Some(now)) else s, []);
    if readback == Mismatch {
      MismatchMove(w, g, now);
    } else {
      LiveMove(if readback == Verified && s.phase != FALLBACK then w.(s := w.s.(backoffS := 0.0)) else w, x, g, now);
    }
  }

  // ----- Whole runs

  /** A run with one configuration in dynamic mode and a clock that never goes back. */
  ghost predicate DynamicRun(inputs: seq<Input>, g: Config) {
    && g.Sound() && g.mode == Dynamic
    && (forall i | 0 <= i < |inputs| :: inputs[i].config == g)
    && (forall i, j | 0 <= i < j < |inputs| :: inputs[i].now <= inputs[j].now)
  }

  lemma {:induction false} RunStaysDynamic(l: Loop, inputs: seq<Input>, g: Config)
    requires DynamicState(l.gov, g) && DynamicRun(inputs, g)
    ensures DynamicState(Run(l, inputs).gov, g) && (l.gov.pl1.Some? ==> Run(l, inputs).gov.pl1.Some?)
  {
    if inputs != [] {
      var n := |inputs| - 1;
      var before := Run(l, inputs[..n]);
      RunStaysDynamic(l, inputs[..n], g);
      TickGov(before, inputs[n]);
      StepMove(before.gov, inputs[n].sample, before.readback, g, inputs[n].now);
    }
  }

  /** In every tick of such a run: entering, staying in and leaving FALLBACK never raises the commanded PL1, PL1 is
      never above the thermal cap, and a thermal trim strictly lowers a commanded PL1. */
  lemma RunMoves(l: Loop, inputs: seq<Input>, g: Config, k: nat)
    requires DynamicState(l.gov, g) && DynamicRun(inputs, g) && k < |inputs|
    ensures var b := Run(l, inputs[..k]); var e := Run(l, inputs[..k + 1]).gov;
      && e.pl1.Some?
      && (b.gov.pl1.Some? && (b.gov.phase == FALLBACK || e.phase == FALLBACK) ==> e.pl1.value <= b.gov.pl1.value)
      && (e.thermalCap.Some? ==> e.pl1.value <= e.thermalCap.value)
      && (b.gov.pl1.Some? && Trimmed(Step(b.gov, inputs[k].sample, b.readback, g, inputs[k].now).actions)
          ==> e.pl1.value < b.gov.pl1.value)
  {
    var b := Run(l, inputs[..k]);
    assert inputs[..k + 1][..k] == inputs[..k];
    RunStaysDynamic(l, inputs[..k], g);
    TickGov(b, inputs[k]);
    StepMove(b.gov, inputs[k].sample, b.readback, g, inputs[k].now);
  }

  /** `n` times `x`. */
  function Times(n: nat, x: real): real {
    if n == 0 then 0.0 else Times(n - 1, x) + x
  }

  /** After `n` raises, the last at `raised`: each needed an interval of its own after the one before it. */
  ghost predicate RateBound(s: GovState, p0: real, t0: real, n: nat, raised: real, g: Config) {
    && s.pl1.Some? && s.pl1.value <= p0 + Times(n, g.recoverStepW)
    && (n > 0 ==> t0 + Times(n - 1, g.recoverIntervalS) <= raised
                  && (s.belowRecoverSince.Some? ==> s.belowRecoverSince.value >= raised))
  }

  lemma MoveKeepsRate(s: GovState, e: GovState, p0: real, t0: real, n: nat, raised: real, g: Config, now: real)
    returns (n': nat, raised': real)
    requires g.Sound() && s.pl1.Some? && GoodMove(s, e, g, now) && now >= t0
    requires RateBound(s, p0, t0, n, raised, g) && (n > 0 ==> raised <= now)
    ensures RateBound(e, p0, t0, n', raised', g) && (n' > 0 ==> raised' <= now)
  {
    if e.pl1.value <= s.pl1.value {
      n', raised' := n, raised;
    } else {
      n', raised' := n + 1, now;
    }
  }

  lemma {:induction false} RunKeepsRate(l: Loop, inputs: seq<Input>, g: Config, t0: real) returns (n: nat, raised: real)
    requires DynamicState(l.gov, g) && l.gov.pl1.Some? && DynamicRun(inputs, g)
    requires forall i | 0 <= i < |inputs| :: t0 <= inputs[i].now
    ensures RateBound(Run(l, inputs).gov, l.gov.pl1.value, t0, n, raised, g)
    ensures n > 0 ==> inputs != [] && raised <= inputs[|inputs| - 1].now
    decreases |inputs|
  {
    n, raised := 0, t0;
    if inputs != [] {
      var last := |inputs| - 1;
      var before := Run(l, inputs[..last]);
      n, raised := RunKeepsRate(l, inputs[..last], g, t0);
      RunStaysDynamic(l, inputs[..last], g);
      TickGov(before, inputs[last]);
      StepMove(before.gov, inputs[last].sample, before.readback, g, inputs[last].now);
      n, raised := MoveKeepsRate(before.gov, Run(l, inputs).gov, l.gov.pl1.value, t0, n, raised, g, inputs[last].now);
    }
  }

  /** The rise of PL1 over a run. */
  ghost function Rise(l: Loop, inputs: seq<Input>): real {
    var e := Run(l, inputs).gov;
    if l.gov.pl1.Some? && e.pl1.Some? then e.pl1.value - l.gov.pl1.value else 0.0
  }

  /** recover_step_w * (1 + T / recover_interval_s) */
  function MostRise(step: real, interval: real, elapsed: real): real
    requires interval > 0.0
  {
    step * (1.0 + elapsed / interval)
  }

  lemma RiseInSteps(l: Loop, inputs: seq<Input>, g: Config, t0: real, t1: real) returns (n: nat)
    requires DynamicState(l.gov, g) && l.gov.pl1.Some? && DynamicRun(inputs, g)
    requires t0 <= t1 && forall i | 0 <= i < |inputs| :: t0 <= inputs[i].now <= t1
    ensures Run(l, inputs).gov.pl1.Some? && Rise(l, inputs) <= Times(n, g.recoverStepW)
    ensures n > 0 ==> Times(n - 1, g.recoverIntervalS) <= t1 - t0
  {
    var raised;
    n, raised := RunKeepsRate(l, inputs, g, t0);
  }

  /** Over any stretch of a fixed-configuration dynamic run whose ticks lie between t0 and t1, from any state it
      reaches and whatever the hardware does, PL1 rises by at most recover_step_w * (1 + T / recover_interval_s); more
      exactly, by at most n recovery steps, where n - 1 whole recovery intervals fit between t0 and t1. */
  lemma RecoveryRate(l: Loop, inputs: seq<Input>, g: Config, t0: real, t1: real) returns (n: nat)
    requires DynamicState(l.gov, g) && l.gov.pl1.Some? && DynamicRun(inputs, g)
    requires t0 <= t1 && forall i | 0 <= i < |inputs| :: t0 <= inputs[i].now <= t1
    ensures Run(l, inputs).gov.pl1.Some? && Rise(l, inputs) <= MostRise(g.recoverStepW, g.recoverIntervalS, t1 - t0)
    ensures Rise(l, inputs) <= Times(n, g.recoverStepW) && (n > 0 ==> Times(n - 1, g.recoverIntervalS) <= t1 - t0)
  {
    n := RiseInSteps(l, inputs, g, t0, t1);
    RateFormula(Rise(l, inputs), t1 - t0, n, g.recoverStepW, g.recoverIntervalS);
  }

  lemma RateFormula(rise: real, elapsed: real, n: nat, step: real, interval: real)
    requires step > 0.0 && interval > 0.0 && elapsed >= 0.0
    requires rise <= Times(n, step) && (n > 0 ==> Times(n - 1, interval) <= elapsed)
    ensures rise <= MostRise(step, interval, elapsed)
  {
    var q := elapsed / interval;
    TimesIsProduct(n, step);
    assert q >= 0.0;
    if n > 0 {
      TimesIsProduct(n - 1, interval);
      Cancel((n - 1) as real, q, interval, Times(n - 1, interval), elapsed);
    }
    Scale(n as real, 1.0 + q, step);
  }

  lemma Cancel(a: real, b: real, c: real, x: real, y: real)
    requires c > 0.0 && x == a * c && b == y / c && x <= y
    ensures a <= b
  {
  }

  lemma Scale(a: real, b: real, c: real)
    requires c > 0.0 && a <= b
    ensures a * c <= c * b
  {
  }

  lemma TimesIsProduct(n: nat, x: real)
    ensures Times(n, x) == n as real * x
  {
  }

  lemma InitialIsDynamic(now: real, fwPl1: Option<real>, fwPl2: Option<real>, g: Config)
    requires OrMax(fwPl1) >= g.Floor()
    ensures DynamicState(Initial(now, fwPl1, fwPl2), g)
  {
  }

  // ----- What NORMAL means

  /** The ceiling under the thermal rule, as a step from `s` finds it. */
  function EffectiveCeiling(s: GovState, temp: Option<real>, g: Config, now: real): real {
    Thermal(Work(s, []), temp, g.Floor(), s.Top(g), g, now).1
  }

  predicate BelowTop(s: GovState, g: Config) { s.phase == NORMAL && s.pl1.Some? && s.pl1.value < s.Top(g) }

  /** A step that keeps NORMAL without looking at the rules, below the top. */
  predicate HeldBelowTop(s: GovState, temp: Option<real>, g: Config, now: real) {
    && s.phase == NORMAL && s.pl1.Some?
    && (EffectiveCeiling(s, temp, g, now) < s.Top(g) || (s.pl1.value < s.Top(g) && g.Floor() < s.Top(g)))
  }

  lemma RulingNormal(t: Work, level: Level, ceiling: real, top: real, g: Config, now: real)
    requires g.Floor() <= ceiling <= top
    ensures var r := DynamicRuling(t, level, ceiling, top, g, now);
      && r.w.s.fwPl1 == t.s.fwPl1
      && (r.phase == NORMAL && r.pl1 < top <==>
            && level == Unknown && t.s.phase == NORMAL && t.s.pl1.Some?
            && (ceiling < top || (t.s.pl1.value < top && g.Floor() < top)))
      && (r.phase == NORMAL ==> g.Floor() <= r.pl1 <= ceiling)
  {
  }

  lemma DynamicNormal(w: Work, level: Level, temp: Option<real>, g: Config, force: bool, now: real)
    requires g.Sound() && FirmwareOk(w.s, g)
    ensures BelowTop(StepDynamic(w, level, temp, g, force, now).s, g) <==>
              level == Unknown && HeldBelowTop(w.s, temp, g, now)
  {
    var top := w.s.Top(g);
    CapInRange(w.s, g, Max(g.ceilingW, g.staticCapW));
    ThermalRange(w, temp, g.Floor(), top, g, now);
    var (t, ceiling) := Thermal(w, temp, g.Floor(), top, g, now);
    assert ceiling == EffectiveCeiling(w.s, temp, g, now);
    RulingNormal(t, level, ceiling, top, g, now);
    var r := DynamicRuling(t, level, ceiling, top, g, now);
    FinishBounds(r, g, force || Resuming(t.s), now);
    if r.phase == NORMAL {
      CapInRange(w.s, g, r.pl1);
    }
  }

  lemma ThermalRange(w: Work, temp: Option<real>, floor: real, ceiling: real, g: Config, now: real)
    requires g.Sound() && floor <= ceiling
    ensures var (t, cap) := Thermal(w, temp, floor, ceiling, g, now);
      && floor <= cap <= ceiling && t.s == w.s.(thermalCap := t.s.thermalCap, lastThermal := t.s.lastThermal)
  {
  }

  /** The other steps do not end in NORMAL. */
  lemma OffNotNormal(w: Work, g: Config, now: real)
    ensures StepOff(w, g, now).s.phase == OFF
  {
  }

  lemma MismatchNotNormal(w: Work, g: Config, now: real)
    ensures StepReadbackFailed(w, g, now).s.phase == FALLBACK
  {
  }

  lemma StaticNotNormal(w: Work, g: Config, force: bool, now: real)
    ensures StepStatic(w, g, force, now).s.phase == STATIC
  {
  }

  lemma StaleNotNormal(w: Work, g: Config, retried: bool, now: real)
    ensures StepStale(w, g, retried, now).s.phase == FALLBACK
  {
  }

  lemma WaitingNotNormal(w: Work, x: Sample, g: Config, now: real)
    requires w.s.phase == FALLBACK
    ensures StepWaiting(w, x, g, now).s.phase == FALLBACK
  {
  }

  lemma LiveNormal(a: Work, x: Sample, g: Config, now: real)
    requires g.Sound() && FirmwareOk(a.s, g) && g.mode != Off
    ensures BelowTop(StepLive(a, x, g, now).s, g) <==>
              && g.mode == Dynamic && !x.Valid() && !Stale(a.s, g, now) && HeldBelowTop(a.s, x.pkgC, g, now)
  {
    var waiting := a.s.phase == FALLBACK && a.s.retryAt.Some?;
    var b := if waiting then a.(s := a.s.(retryAt := None)).Emit(Retry) else a;
    var force := a.s.phase in {OFF, FALLBACK};
    if waiting && now < a.s.retryAt.value {
      WaitingNotNormal(a, x, g, now);
    } else if g.mode == Static {
      StaticNotNormal(b, g, force, now);
    } else if Stale(b.s, g, now) {
      StaleNotNormal(b, g, waiting, now);
    } else {
      DynamicNormal(b, x.Level(g), x.pkgC, g, force, now);
    }
  }

  /** The clock of the last valid sample and the backoff have no part in it. */
  lemma SameHeld(s: GovState, backoff: real, temp: Option<real>, g: Config, now: real)
    ensures HeldBelowTop(s.(backoffS := backoff), temp, g, now) <==> HeldBelowTop(s, temp, g, now)
  {
  }

  /** NORMAL means PL1 at the top, with one exception, exactly: a dynamic step on a sample that is not valid, while the
      last valid one is not stale yet and no readback failed, keeps NORMAL although the thermal ceiling is below the top
      or PL1 already was. */
  lemma NormalBelowTopExactly(s: GovState, x: Sample, readback: Readback, g: Config, now: real)
    requires g.Sound() && FirmwareOk(s, g)
    ensures BelowTop(Step(s, x, readback, g, now).s, g) <==>
              && g.mode == Dynamic && readback != Mismatch && !x.Valid() && !Stale(s, g, now)
              && HeldBelowTop(s, x.pkgC, g, now)
  {
    var w := Work(if x.Valid() then s.(lastValid := Some(now)) else s, []);
    if g.mode == Off {
      OffNotNormal(w, g, now);
    } else if readback == Mismatch {
      MismatchNotNormal(w, g, now);
    } else {
      LiveNormal(if readback == Verified && s.phase != FALLBACK then w.(s := w.s.(backoffS := 0.0)) else w, x, g, now);
      SameHeld(s, 0.0, x.pkgC, g, now);
    }
  }

  /** Static cap and ceiling at 45 W, trimming at 97 degrees. */
  function WarmConfig(): Config {
    Config(Dynamic, 45.0, 45.0, 10.0, 0.0, 0.88, 0.94, 0.78, 5.0, 1.0, 3.0, 2.0, Some(97.0), 92.0, 1.0, 3.0)
  }

  /** The first valid sample starts it at the top. */
  lemma StartsAtTop(x: Sample)
    requires x.Valid() && x.Level(WarmConfig()) == Low && x.pkgC == Some(60.0)
    ensures var e := Step(Initial(0.0, None, None), x, NoReadback, WarmConfig(), 0.0).s;
      && e.phase == NORMAL && e.pl1 == Some(45.0) && e.lastValid == Some(0.0) && e.fwPl1 == None
      && e.thermalCap == None && e.lastThermal == None
  {
  }

  lemma TrimBites(s: GovState)
    requires s.phase == NORMAL && s.pl1 == Some(45.0) && s.lastValid == Some(0.0) && s.fwPl1 == None
    requires s.thermalCap == None && s.lastThermal == None
    ensures HeldBelowTop(s, Some(98.0), WarmConfig(), 1.0) && !Stale(s, WarmConfig(), 1.0)
  {
  }

  function WarmInput(): Input {
    Input(Sample(Some(30.0), Some(30.0), Some(87.0), Some(60.0)), WarmConfig(), 0.0,
          Outcome(true, false, false, true, true, true, true, None))
  }

  function HotInput(): Input {
    Input(Sample(None, None, None, Some(98.0)), WarmConfig(), 1.0,
          Outcome(true, false, false, true, true, true, true, None))
  }

  ghost predicate AtTop(s: GovState) {
    && s.phase == NORMAL && s.pl1 == Some(45.0) && s.lastValid == Some(0.0) && s.fwPl1 == None
    && s.thermalCap == None && s.lastThermal == None
  }

  lemma FirstTick(zone: Zone)
    ensures var l := Tick(Loop(Initial(0.0, None, None), NoReadback, zone, None), WarmInput());
      AtTop(l.gov) && l.readback != Mismatch
  {
    var start := Loop(Initial(0.0, None, None), NoReadback, zone, None);
    TickGov(start, WarmInput());
    StartsAtTop(WarmInput().sample);
    FullWriteVerifies(start, WarmInput());
  }

  lemma SecondTick(first: Loop)
    requires AtTop(first.gov) && first.readback != Mismatch
    ensures BelowTop(Tick(first, HotInput()).gov, WarmConfig())
  {
    TickGov(first, HotInput());
    TrimBites(first.gov);
    NormalBelowTopExactly(first.gov, HotInput().sample, first.readback, WarmConfig(), 1.0);
  }

  /** The exception is reached: two ticks from the start of the daemon, on hardware that takes every write. */
  lemma NormalBelowTop(zone: Zone) returns (inputs: seq<Input>)
    ensures DynamicRun(inputs, WarmConfig())
    ensures BelowTop(Run(Loop(Initial(0.0, None, None), NoReadback, zone, None), inputs).gov, WarmConfig())
  {
    inputs := [WarmInput(), HotInput()];
    var start := Loop(Initial(0.0, None, None), NoReadback, zone, None);
    RunOfTwo(start, WarmInput(), HotInput());
    FirstTick(zone);
    SecondTick(Tick(start, WarmInput()));
  }

  lemma RunOfTwo(l: Loop, i: Input, j: Input)
    ensures Run(l, [i, j]) == Tick(Tick(l, i), j)
  {
    assert [i, j][..1] == [i] && [i][..0] == [];
    assert Run(l, [i]) == Tick(Run(l, []), i);
  }
}
