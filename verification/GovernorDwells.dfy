/** What takes time in the governor: recoveries and the end of an emergency follow a dwell of samples, the thermal rule
    moves a step per interval, and the retries back off. */
module GovernorDwells {
  import opened Options
  import opened Governor
  import opened GovernorLoop
  import opened GovernorRuns
  import opened GovernorProgress
  import opened GovernorModes

  // ----- Timers

  /** Outside the phases they belong to the timers do not run. */
  ghost predicate TimersOk(s: GovState) {
    && (s.phase in {FALLBACK, OFF} ==> s.belowShedSince.None? && s.belowRecoverSince.None?)
    && (s.phase == EMERGENCY ==> s.belowRecoverSince.None?)
  }

  /** Where the sample stands is below the shed threshold, or not known. */
  predicate NotShedding(x: Sample, g: Config) { Usable(x) ==> Ordinary(x, g) && Below(x, g.shedRatio) }
  predicate NotUneasy(x: Sample, g: Config) { Usable(x) ==> Calm(x, g) }

  /** A timer after a step either stopped, or runs on, or was started by a usable sample; and it runs only on samples on
      its side of the threshold. */
  ghost predicate TimerMove(before: Option<real>, after: Option<real>, usable: bool, calm: bool, now: real) {
    after.Some? ==> calm && (after == before || (after == Some(now) && usable))
  }

  ghost predicate TimersMove(s: GovState, e: GovState, x: Sample, g: Config, now: real) {
    && TimersOk(e)
    && TimerMove(s.belowShedSince, e.belowShedSince, Usable(x), NotShedding(x, g), now)
    && TimerMove(s.belowRecoverSince, e.belowRecoverSince, Usable(x), NotUneasy(x, g), now)
  }

  lemma RulesMoveTimers(
    w: Work, x: Sample, pl1: real, hold: Phase, floor: real, ceiling: real, top: real, g: Config, now: real)
    requires TimersOk(w.s) && (Running(w.s.phase) ==> hold in {w.s.phase, NORMAL, TRIM}) && Running(hold)
    requires !Running(w.s.phase) ==> hold != EMERGENCY && w.s.phase in {FALLBACK, OFF}
    ensures var r := Rules(w, x.Level(g), pl1, hold, floor, ceiling, top, g, now);
      && (r.phase == EMERGENCY ==> r.w.s.belowRecoverSince.None?)
      && TimerMove(w.s.belowShedSince, r.w.s.belowShedSince, Usable(x), NotShedding(x, g), now)
      && TimerMove(w.s.belowRecoverSince, r.w.s.belowRecoverSince, Usable(x), NotUneasy(x, g), now)
  {
  }

  lemma DynamicMovesTimers(w: Work, x: Sample, g: Config, force: bool, now: real)
    requires g.Sound() && DynamicState(w.s, g) && TimersOk(w.s)
    ensures TimersMove(w.s, StepDynamic(w, x.Level(g), x.pkgC, g, force, now).s, x, g, now)
  {
    var floor, top := g.Floor(), w.s.Top(g);
    CapInRange(w.s, g, Max(g.ceilingW, g.staticCapW));
    ThermalRange(w, x.pkgC, floor, top, g, now);
    var (t, ceiling) := Thermal(w, x.pkgC, floor, top, g, now);
    var pl1 := Min(Max(StartW(t, g), floor), ceiling);
    var hold := if !Resuming(t.s) then t.s.phase else if pl1 >= top then NORMAL else TRIM;
    RulesMoveTimers(t, x, pl1, hold, floor, ceiling, top, g, now);
    RulesRunning(t, x.Level(g), pl1, hold, floor, ceiling, top, g, now);
    var r := DynamicRuling(t, x.Level(g), ceiling, top, g, now);
    FinishTimers(r, g, force || Resuming(t.s), now);
  }

  lemma FinishTimers(r: Ruling, g: Config, force: bool, now: real)
    ensures var e := FinishDynamic(r, g, force, now).s;
      && e.phase == r.phase && e.belowShedSince == r.w.s.belowShedSince
      && e.belowRecoverSince == r.w.s.belowRecoverSince
  {
  }

  lemma FallbackStopsTimers(s: GovState, x: Sample, readback: Readback, g: Config, now: real)
    requires g.Sound() && g.mode == Dynamic && DynamicState(s, g) && TimersOk(s) && !Live(s, x, readback, g, now)
    ensures var e := Step(s, x, readback, g, now).s;
      e.phase == FALLBACK && e.belowShedSince.None? && e.belowRecoverSince.None?
  {
    var v := if x.Valid() then s.(lastValid := Some(now)) else s;
    FallbackStays(s, x, readback, g, now);
    NotStale(s, x, s.backoffS, s.retryAt, g, now);
    NotStale(s, x, 0.0, s.retryAt, g, now);
    NotStale(s, x, s.backoffS, None, g, now);
  }

  lemma StepMovesTimers(s: GovState, x: Sample, readback: Readback, g: Config, now: real)
    requires g.Sound() && g.mode == Dynamic && DynamicState(s, g) && TimersOk(s)
    ensures TimersMove(s, Step(s, x, readback, g, now).s, x, g, now)
  {
    if Live(s, x, readback, g, now) {
      var w := LiveStep(s, x, readback, g, now);
      DynamicMovesTimers(w, x, g, s.phase in {OFF, FALLBACK}, now);
    } else {
      FallbackStopsTimers(s, x, readback, g, now);
    }
  }

  // ----- Dwells over runs

  predicate Quiet(x: Sample, recovery: bool, g: Config) { if recovery then NotUneasy(x, g) else NotShedding(x, g) }

  /** Input `k` is usable and started a timer at `t`; no sample from it up to `n` was on the other side. */
  ghost predicate Started(inputs: seq<Input>, k: nat, n: nat, t: real, recovery: bool, g: Config)
    requires n <= |inputs|
  {
    && k < n && inputs[k].now == t && Usable(inputs[k].sample)
    && forall i | k <= i < n :: Quiet(inputs[i].sample, recovery, g)
  }

  /** A running timer was started by one of the first `n` inputs. */
  ghost predicate HasStart(timer: Option<real>, inputs: seq<Input>, n: nat, recovery: bool, g: Config)
    requires n <= |inputs|
  {
    timer.Some? ==> exists k: nat :: Started(inputs, k, n, timer.value, recovery, g)
  }

  lemma HasStartOn(before: Option<real>, after: Option<real>, inputs: seq<Input>, recovery: bool, g: Config)
    requires inputs != [] && HasStart(before, inputs[..|inputs| - 1], |inputs| - 1, recovery, g)
    requires var i := inputs[|inputs| - 1];
      TimerMove(before, after, Usable(i.sample), Quiet(i.sample, recovery, g), i.now)
    ensures HasStart(after, inputs, |inputs|, recovery, g)
  {
    var n := |inputs| - 1;
    if after.Some? {
      if after == before {
        var k: nat :| Started(inputs[..n], k, n, before.value, recovery, g);
        assert forall i | k <= i < n :: inputs[..n][i] == inputs[i];
        assert Started(inputs, k, n + 1, after.value, recovery, g);
      } else {
        assert Started(inputs, n, n + 1, after.value, recovery, g);
      }
    }
  }

  /** A dynamic run that starts with no timer running. */
  ghost predicate FreshRun(l: Loop, inputs: seq<Input>, g: Config) {
    && DynamicRun(inputs, g) && DynamicState(l.gov, g) && TimersOk(l.gov)
    && l.gov.belowShedSince.None? && l.gov.belowRecoverSince.None?
  }

  /** Each running timer has its start, and every sample since was on the timer's side. */
  ghost predicate Timed(e: GovState, inputs: seq<Input>, g: Config) {
    && DynamicState(e, g) && TimersOk(e)
    && HasStart(e.belowShedSince, inputs, |inputs|, false, g)
    && HasStart(e.belowRecoverSince, inputs, |inputs|, true, g)
  }

  lemma TickTimers(b: Loop, i: Input, g: Config)
    requires g.Sound() && g.mode == Dynamic && i.config == g && DynamicState(b.gov, g) && TimersOk(b.gov)
    ensures DynamicState(Tick(b, i).gov, g) && TimersMove(b.gov, Tick(b, i).gov, i.sample, g, i.now)
    ensures GoodMove(b.gov, Tick(b, i).gov, g, i.now)
  {
    TickGov(b, i);
    StepMove(b.gov, i.sample, b.readback, g, i.now);
    StepMovesTimers(b.gov, i.sample, b.readback, g, i.now);
  }

  lemma TimedOn(b: GovState, e: GovState, inputs: seq<Input>, g: Config)
    requires inputs != [] && Timed(b, inputs[..|inputs| - 1], g) && DynamicState(e, g)
    requires TimersMove(b, e, inputs[|inputs| - 1].sample, g, inputs[|inputs| - 1].now)
    ensures Timed(e, inputs, g)
  {
    HasStartOn(b.belowShedSince, e.belowShedSince, inputs, false, g);
    HasStartOn(b.belowRecoverSince, e.belowRecoverSince, inputs, true, g);
  }

  /** In every such run. */
  lemma {:induction false} RunHasStarts(l: Loop, inputs: seq<Input>, g: Config)
    requires FreshRun(l, inputs, g)
    ensures Timed(Run(l, inputs).gov, inputs, g)
    decreases |inputs|
  {
    if inputs != [] {
      var n := |inputs| - 1;
      RunHasStarts(l, inputs[..n], g);
      TickTimers(Run(l, inputs[..n]), inputs[n], g);
      TimedOn(Run(l, inputs[..n]).gov, Run(l, inputs).gov, inputs, g);
    }
  }

  /** Input `k` started it, `d` before the last input. */
  ghost predicate Since(inputs: seq<Input>, k: nat, d: real, recovery: bool, g: Config)
    requires inputs != []
  {
    var n := |inputs| - 1;
    k < n && Started(inputs, k, n, inputs[k].now, recovery, g) && inputs[n].now - inputs[k].now >= d
  }

  lemma SinceStart(timer: Option<real>, inputs: seq<Input>, d: real, recovery: bool, g: Config)
    requires inputs != [] && HasStart(timer, inputs[..|inputs| - 1], |inputs| - 1, recovery, g)
    requires timer.Some? && inputs[|inputs| - 1].now - timer.value >= d
    ensures exists k: nat :: Since(inputs, k, d, recovery, g)
  {
    var n := |inputs| - 1;
    var k: nat :| Started(inputs[..n], k, n, timer.value, recovery, g);
    assert forall i | k <= i < n :: inputs[..n][i] == inputs[i];
    assert Since(inputs, k, d, recovery, g);
  }

  /** In every such run PL1 goes up only on a calm sample, after a recovery interval in which every usable sample was
      calm. */
  lemma RaiseTakesCalm(l: Loop, inputs: seq<Input>, g: Config)
    requires inputs != [] && FreshRun(l, inputs, g)
    requires var b, e := Run(l, inputs[..|inputs| - 1]).gov, Run(l, inputs).gov;
      b.pl1.Some? && e.pl1.Some? && e.pl1.value > b.pl1.value
    ensures Calm(inputs[|inputs| - 1].sample, g) && exists k: nat :: Since(inputs, k, g.recoverIntervalS, true, g)
  {
    var n := |inputs| - 1;
    var b := Run(l, inputs[..n]);
    RunHasStarts(l, inputs[..n], g);
    TickTimers(b, inputs[n], g);
    SinceStart(b.gov.belowRecoverSince, inputs, g.recoverIntervalS, true, g);
  }

  lemma EmergencyEnds(s: GovState, x: Sample, readback: Readback, g: Config, now: real)
    requires g.Sound() && g.mode == Dynamic && DynamicState(s, g) && s.phase == EMERGENCY
    ensures Step(s, x, readback, g, now).s.phase !in {EMERGENCY, FALLBACK} ==>
              Ordinary(x, g) && !Shedding(x, g) && HeldLongEnough(s, now)
  {
    FallbackExactly(s, x, readback, g, now);
    if readback != Mismatch && Usable(x) {
      if Ordinary(x, g) {
        EmergencyHolds(s, x, readback, g, now);
      } else {
        EmergencyEnters(s, x, readback, g, now);
      }
    } else if Live(s, x, readback, g, now) {
      BlindHolds(s, x, readback, g, now);
    }
  }

  /** In every such run an emergency ends, other than in FALLBACK, only on a sample below the shed threshold, after five
      seconds in which every usable sample was. */
  lemma EmergencyTakesHold(l: Loop, inputs: seq<Input>, g: Config)
    requires inputs != [] && FreshRun(l, inputs, g)
    requires Run(l, inputs[..|inputs| - 1]).gov.phase == EMERGENCY
    requires Run(l, inputs).gov.phase !in {EMERGENCY, FALLBACK}
    ensures Usable(inputs[|inputs| - 1].sample) && Quiet(inputs[|inputs| - 1].sample, false, g)
    ensures exists k: nat :: Since(inputs, k, 5.0, false, g)
  {
    var n := |inputs| - 1;
    var b := Run(l, inputs[..n]);
    RunHasStarts(l, inputs[..n], g);
    TickGov(b, inputs[n]);
    EmergencyEnds(b.gov, inputs[n].sample, b.readback, g, inputs[n].now);
    SinceStart(b.gov.belowShedSince, inputs, 5.0, false, g);
  }

  // ----- The thermal rule

  /** The ceiling the last steps left. */
  function CapOf(s: GovState, g: Config): real {
    if s.thermalCap.Some? && g.thermalTrimC.Some? then s.thermalCap.value else s.Top(g)
  }

  predicate ThermalDue(s: GovState, g: Config, now: real) {
    s.lastThermal.Some? ==> now - s.lastThermal.value >= g.thermalIntervalS
  }

  predicate Hot(x: Sample, g: Config) { g.thermalTrimC.Some? && x.pkgC.Some? && x.pkgC.value >= g.thermalTrimC.value }

  predicate Cool(x: Sample, g: Config) {
    g.thermalTrimC.Some? && x.pkgC.Some? && x.pkgC.value < g.thermalTrimC.value && x.pkgC.value < g.thermalRecoverC
  }

  /** What the thermal rule starts from: the ceiling, or PL1 where that is lower, so that the first step bites. */
  function HotStart(s: GovState, g: Config): real {
    if s.pl1.Some? && s.pl1.value < CapOf(s, g) then s.pl1.value else CapOf(s, g)
  }

  /** One interval after the last thermal step a hot package lowers the ceiling a step, at most to the floor, and a cool
      one raises it a step, at most to the top; otherwise it stays. PL1 is under it either way. */
  ghost predicate ThermalMove(s: GovState, e: GovState, x: Sample, g: Config, now: real) {
    var trims := ThermalDue(s, g, now) && Hot(x, g) && HotStart(s, g) > g.Floor();
    var eases := ThermalDue(s, g, now) && Cool(x, g) && CapOf(s, g) < s.Top(g);
    && e.pl1.Some? && e.pl1.value <= CapOf(e, g)
    && (trims ==> CapOf(e, g) == Max(g.Floor(), HotStart(s, g) - g.thermalStepW))
    && (eases ==> CapOf(e, g) == Min(s.Top(g), CapOf(s, g) + g.thermalStepW))
    && (!trims && !eases ==> CapOf(e, g) == CapOf(s, g))
    && e.lastThermal == (if trims || eases then Some(now) else s.lastThermal) && e.Top(g) == s.Top(g)
  }

  lemma ThermalCeiling(w: Work, x: Sample, g: Config, now: real)
    requires g.Sound() && DynamicState(w.s, g)
    ensures var (t, ceiling) := Thermal(w, x.pkgC, g.Floor(), w.s.Top(g), g, now); var s := w.s;
      var trims := ThermalDue(s, g, now) && Hot(x, g) && HotStart(s, g) > g.Floor();
      var eases := ThermalDue(s, g, now) && Cool(x, g) && CapOf(s, g) < s.Top(g);
      && CapOf(t.s, g) == ceiling
      && (trims ==> ceiling == Max(g.Floor(), HotStart(s, g) - g.thermalStepW))
      && (eases ==> ceiling == Min(s.Top(g), CapOf(s, g) + g.thermalStepW))
      && (!trims && !eases ==> ceiling == CapOf(s, g))
      && t.s.lastThermal == if trims || eases then Some(now) else s.lastThermal
  {
    CapInRange(w.s, g, Max(g.ceilingW, g.staticCapW));
  }

  lemma RulingKeepsThermal(t: Work, level: Level, ceiling: real, top: real, g: Config, force: bool, now: real)
    ensures var e := FinishDynamic(DynamicRuling(t, level, ceiling, top, g, now), g, force, now).s;
      e.thermalCap == t.s.thermalCap && e.lastThermal == t.s.lastThermal && e.fwPl1 == t.s.fwPl1
  {
    RulesKeepThermal(t, level, ceiling, top, g, now);
    FinishKeepsThermal(DynamicRuling(t, level, ceiling, top, g, now), g, force, now);
  }

  lemma RulesKeepThermal(t: Work, level: Level, ceiling: real, top: real, g: Config, now: real)
    ensures var s := DynamicRuling(t, level, ceiling, top, g, now).w.s;
      s.thermalCap == t.s.thermalCap && s.lastThermal == t.s.lastThermal && s.fwPl1 == t.s.fwPl1
  {
  }

  lemma FinishKeepsThermal(r: Ruling, g: Config, force: bool, now: real)
    ensures var e := FinishDynamic(r, g, force, now).s;
      e.thermalCap == r.w.s.thermalCap && e.lastThermal == r.w.s.lastThermal && e.fwPl1 == r.w.s.fwPl1
  {
  }

  lemma ThermalStep(s: GovState, x: Sample, readback: Readback, g: Config, now: real)
    requires Live(s, x, readback, g, now)
    ensures ThermalMove(s, Step(s, x, readback, g, now).s, x, g, now)
  {
    var w := LiveStep(s, x, readback, g, now);
    ThermalOf(w, x, g, s.phase in {OFF, FALLBACK}, now);
    SameThermal(w.s, s, Step(s, x, readback, g, now).s, x, g, now);
  }

  lemma SameThermal(a: GovState, s: GovState, e: GovState, x: Sample, g: Config, now: real)
    requires a == s.(lastValid := a.lastValid, backoffS := a.backoffS, retryAt := a.retryAt)
    requires ThermalMove(a, e, x, g, now)
    ensures ThermalMove(s, e, x, g, now)
  {
  }

  lemma ThermalOf(w: Work, x: Sample, g: Config, force: bool, now: real)
    requires g.Sound() && DynamicState(w.s, g) && !Trimmed(w.actions)
    ensures ThermalMove(w.s, StepDynamic(w, x.Level(g), x.pkgC, g, force, now).s, x, g, now)
  {
    var top := w.s.Top(g);
    CapInRange(w.s, g, Max(g.ceilingW, g.staticCapW));
    ThermalRange(w, x.pkgC, g.Floor(), top, g, now);
    ThermalCeiling(w, x, g, now);
    var (t, ceiling) := Thermal(w, x.pkgC, g.Floor(), top, g, now);
    RulingKeepsThermal(t, x.Level(g), ceiling, top, g, force || Resuming(t.s), now);
    var c, p, f := DynamicSummarized(w, x.Level(g), x.pkgC, g, force, now);
    SummaryMove(w.s, StepDynamic(w, x.Level(g), x.pkgC, g, force, now).s, c, p, f, g, now);
  }

  // ----- The thermal rule over runs

  /** Rules that apply at every tick, at least a thermal interval apart, the first thermal step due. */
  ghost predicate ThermalRun(l: Loop, inputs: seq<Input>, g: Config) {
    && DynamicRun(inputs, g) && Spaced(inputs, g.thermalIntervalS) && DynamicState(l.gov, g)
    && (forall i | 0 <= i < |inputs| :: ThermalDue(l.gov, g, inputs[i].now))
    && (forall k: nat | k < |inputs| :: LiveAt(l, inputs, k, g))
  }

  ghost predicate LiveAt(l: Loop, inputs: seq<Input>, k: nat, g: Config)
    requires k < |inputs|
  {
    Live(Run(l, inputs[..k]).gov, inputs[k].sample, Run(l, inputs[..k]).readback, g, inputs[k].now)
  }

  lemma LiveAtFront(l: Loop, inputs: seq<Input>, k: nat, g: Config)
    requires k < |inputs| - 1 && LiveAt(l, inputs, k, g)
    ensures LiveAt(l, inputs[..|inputs| - 1], k, g)
  {
    assert inputs[..|inputs| - 1][..k] == inputs[..k];
  }

  /** The last thermal step is an old one, or not after the last input. */
  ghost predicate ThermalTimed(s: GovState, e: GovState, inputs: seq<Input>) {
    e.lastThermal == s.lastThermal
    || (inputs != [] && e.lastThermal.Some? && e.lastThermal.value <= inputs[|inputs| - 1].now)
  }

  lemma ThermalFront(l: Loop, inputs: seq<Input>, g: Config)
    requires inputs != [] && ThermalRun(l, inputs, g)
    ensures ThermalRun(l, inputs[..|inputs| - 1], g)
    ensures LiveAt(l, inputs, |inputs| - 1, g)
  {
    var front := inputs[..|inputs| - 1];
    forall k: nat | k < |front|
      ensures LiveAt(l, front, k, g)
    {
      LiveAtFront(l, inputs, k, g);
    }
  }

  lemma TickThermal(b: Loop, i: Input, g: Config)
    requires i.config == g && Live(b.gov, i.sample, b.readback, g, i.now)
    ensures ThermalMove(b.gov, Tick(b, i).gov, i.sample, g, i.now) && DynamicState(Tick(b, i).gov, g)
    ensures GoodMove(b.gov, Tick(b, i).gov, g, i.now)
  {
    TickGov(b, i);
    ThermalStep(b.gov, i.sample, b.readback, g, i.now);
    StepMove(b.gov, i.sample, b.readback, g, i.now);
  }

  /** PL1 after n hot samples: n thermal steps lower, or at the floor, from where it may have recovered once since. */
  ghost predicate Cooled(s: GovState, e: GovState, n: nat, g: Config)
    requires s.pl1.Some?
  {
    e.pl1.Some? && e.pl1.value <= Max(g.Floor() + g.recoverStepW, s.pl1.value - Times(n, g.thermalStepW))
  }

  /** The ceiling after n cool samples: n thermal steps higher, or at the top. */
  ghost predicate Eased(s: GovState, e: GovState, n: nat, g: Config) {
    e.Top(g) == s.Top(g) && CapOf(e, g) >= Min(s.Top(g), CapOf(s, g) + Times(n, g.thermalStepW))
  }

  lemma ThermalOnce(s: GovState, b: GovState, e: GovState, inputs: seq<Input>, g: Config)
    requires g.Sound() && inputs != [] && Spaced(inputs, g.thermalIntervalS) && DynamicState(b, g)
    requires ThermalDue(s, g, inputs[|inputs| - 1].now) && ThermalTimed(s, b, inputs[..|inputs| - 1])
    requires ThermalMove(b, e, inputs[|inputs| - 1].sample, g, inputs[|inputs| - 1].now)
    requires GoodMove(b, e, g, inputs[|inputs| - 1].now)
    ensures ThermalTimed(s, e, inputs)
    ensures var n := |inputs| - 1;
      && (Hot(inputs[n].sample, g) && s.pl1.Some? && Cooled(s, b, n, g) ==> Cooled(s, e, n + 1, g))
      && (Cool(inputs[n].sample, g) && Eased(s, b, n, g) ==> Eased(s, e, n + 1, g))
  {
    var n := |inputs| - 1;
    if n > 0 {
      assert inputs[n].now - inputs[n - 1].now >= g.thermalIntervalS;
    }
    assert ThermalDue(b, g, inputs[n].now);
  }

  ghost predicate CooledBy(l: Loop, e: GovState, inputs: seq<Input>, g: Config)
    requires l.gov.pl1.Some?
  {
    DynamicState(e, g) && ThermalTimed(l.gov, e, inputs) && Cooled(l.gov, e, |inputs|, g)
  }

  ghost predicate EasedBy(l: Loop, e: GovState, inputs: seq<Input>, g: Config) {
    DynamicState(e, g) && ThermalTimed(l.gov, e, inputs) && Eased(l.gov, e, |inputs|, g)
  }

  /** One more tick of a thermal run, on a hot sample and on a cool one. */
  lemma ThermalTick(l: Loop, b: Loop, inputs: seq<Input>, g: Config)
    requires g.Sound() && inputs != [] && Spaced(inputs, g.thermalIntervalS)
    requires ThermalDue(l.gov, g, inputs[|inputs| - 1].now) && inputs[|inputs| - 1].config == g
    requires Live(b.gov, inputs[|inputs| - 1].sample, b.readback, g, inputs[|inputs| - 1].now)
    ensures var n := |inputs| - 1; var x, e := inputs[n].sample, Tick(b, inputs[n]).gov;
      && (Hot(x, g) && l.gov.pl1.Some? && CooledBy(l, b.gov, inputs[..n], g) ==> CooledBy(l, e, inputs, g))
      && (Cool(x, g) && EasedBy(l, b.gov, inputs[..n], g) ==> EasedBy(l, e, inputs, g))
  {
    var n := |inputs| - 1;
    TickThermal(b, inputs[n], g);
    if ThermalTimed(l.gov, b.gov, inputs[..n]) {
      ThermalOnce(l.gov, b.gov, Tick(b, inputs[n]).gov, inputs, g);
    }
  }

  /** n hot samples, a thermal interval apart, lower PL1 by n thermal steps or to the floor, but for one recovery. */
  lemma {:induction false} HotRun(l: Loop, inputs: seq<Input>, g: Config)
    requires ThermalRun(l, inputs, g) && l.gov.pl1.Some? && forall i | 0 <= i < |inputs| :: Hot(inputs[i].sample, g)
    ensures CooledBy(l, Run(l, inputs).gov, inputs, g)
    decreases |inputs|
  {
    if inputs != [] {
      ThermalFront(l, inputs, g);
      HotRun(l, inputs[..|inputs| - 1], g);
      ThermalTick(l, Run(l, inputs[..|inputs| - 1]), inputs, g);
    }
  }

  /** n cool samples raise the ceiling by n thermal steps, or to the top. */
  lemma {:induction false} CoolRun(l: Loop, inputs: seq<Input>, g: Config)
    requires ThermalRun(l, inputs, g) && forall i | 0 <= i < |inputs| :: Cool(inputs[i].sample, g)
    ensures EasedBy(l, Run(l, inputs).gov, inputs, g)
    decreases |inputs|
  {
    if inputs != [] {
      ThermalFront(l, inputs, g);
      CoolRun(l, inputs[..|inputs| - 1], g);
      ThermalTick(l, Run(l, inputs[..|inputs| - 1]), inputs, g);
    }
  }

  // ----- Retries

  /** The backoff after `n` failed readbacks in a row: 1, 2, 4, 8, 8 seconds and so on. */
  function BackoffAfter(n: nat): real {
    if n == 0 then 0.0 else if n == 1 then 1.0 else if n == 2 then 2.0 else if n == 3 then 4.0 else 8.0
  }

  /** A failed readback takes the next longer backoff and schedules the retry by it; a good one outside FALLBACK starts
      over; nothing else changes it. */
  lemma BackoffStep(s: GovState, x: Sample, readback: Readback, g: Config, now: real, n: nat)
    requires g.mode != Off && s.backoffS == BackoffAfter(n)
    ensures var e := Step(s, x, readback, g, now).s;
      if readback == Mismatch then e.backoffS == BackoffAfter(n + 1) && e.retryAt == Some(now + e.backoffS)
      else e.backoffS == BackoffAfter(if readback == Verified && s.phase != FALLBACK then 0 else n)
  {
    var v := Work(if x.Valid() then s.(lastValid := Some(now)) else s, []);
    if readback == Mismatch {
      MismatchBackoff(v, g, now);
    } else {
      LiveBackoff(if readback == Verified && s.phase != FALLBACK then v.(s := v.s.(backoffS := 0.0)) else v, x, g, now);
    }
  }

  lemma MismatchBackoff(w: Work, g: Config, now: real)
    ensures var e := StepReadbackFailed(w, g, now).s;
      e.backoffS == NextBackoff(w.s.backoffS) && e.retryAt == Some(now + e.backoffS)
  {
  }

  lemma LiveBackoff(a: Work, x: Sample, g: Config, now: real)
    ensures StepLive(a, x, g, now).s.backoffS == a.s.backoffS
  {
    var waiting := a.s.phase == FALLBACK && a.s.retryAt.Some?;
    var b := if waiting then a.(s := a.s.(retryAt := None)).Emit(Retry) else a;
    WaitingBackoff(a, x, g, now);
    StaticBackoff(b, g, a.s.phase in {OFF, FALLBACK}, now);
    StaleBackoff(b, g, waiting, now);
    DynamicBackoff(b, x.Level(g), x.pkgC, g, a.s.phase in {OFF, FALLBACK}, now);
  }

  lemma WaitingBackoff(w: Work, x: Sample, g: Config, now: real)
    ensures StepWaiting(w, x, g, now).s.backoffS == w.s.backoffS
  {
  }

  lemma StaticBackoff(w: Work, g: Config, force: bool, now: real)
    ensures StepStatic(w, g, force, now).s.backoffS == w.s.backoffS
  {
  }

  lemma StaleBackoff(w: Work, g: Config, retried: bool, now: real)
    ensures StepStale(w, g, retried, now).s.backoffS == w.s.backoffS
  {
  }

  lemma DynamicBackoff(w: Work, level: Level, temp: Option<real>, g: Config, force: bool, now: real)
    ensures StepDynamic(w, level, temp, g, force, now).s.backoffS == w.s.backoffS
  {
    var (t, ceiling) := Thermal(w, temp, g.Floor(), w.s.Top(g), g, now);
    assert t.s.backoffS == w.s.backoffS;
    RulingBackoff(t, level, ceiling, w.s.Top(g), g, now);
  }

  lemma RulingBackoff(t: Work, level: Level, ceiling: real, top: real, g: Config, now: real)
    ensures DynamicRuling(t, level, ceiling, top, g, now).w.s.backoffS == t.s.backoffS
  {
  }

  // ----- Where it resumes

  lemma ResumeRuling(t: Work, x: Sample, ceiling: real, top: real, g: Config, now: real)
    requires g.Sound() && TimersOk(t.s) && t.s.phase in {OFF, FALLBACK} && g.Floor() <= ceiling <= top
    requires x.Level(g) !in {Emergency, High}
    ensures var r := DynamicRuling(t, x.Level(g), ceiling, top, g, now);
      && r.pl1 == Min(Max(if t.s.phase == OFF then g.staticCapW else FallbackLimit(t.s, g), g.Floor()), ceiling)
      && r.phase == PhaseAt(r.pl1, top) && r.w.s.fwPl1 == t.s.fwPl1
  {
  }

  /** Governing starts from the static cap, and after FALLBACK from the fallback limit; a shedding sample or an
      emergency aside, nothing else moves it at once. */
  lemma Resumes(s: GovState, x: Sample, readback: Readback, g: Config, now: real)
    requires Live(s, x, readback, g, now) && TimersOk(s) && s.phase in {OFF, FALLBACK}
    requires Usable(x) ==> Ordinary(x, g) && !Shedding(x, g)
    ensures var e := Step(s, x, readback, g, now).s;
      var start := if s.phase == OFF then g.staticCapW else FallbackLimit(s, g);
      && e.pl1 == Some(Min(Max(start, g.Floor()), CapOf(e, g))) && e.phase == PhaseAt(e.pl1.value, s.Top(g))
  {
    var w := LiveStep(s, x, readback, g, now);
    ResumesDynamic(w, x, g, now);
    SameResume(w.s, s, g);
  }

  lemma SameResume(a: GovState, s: GovState, g: Config)
    requires a == s.(lastValid := a.lastValid, backoffS := a.backoffS, retryAt := a.retryAt)
    ensures FallbackLimit(a, g) == FallbackLimit(s, g) && a.Top(g) == s.Top(g) && a.phase == s.phase
  {
  }

  lemma ResumesDynamic(w: Work, x: Sample, g: Config, now: real)
    requires g.Sound() && DynamicState(w.s, g) && TimersOk(w.s) && w.s.phase in {OFF, FALLBACK}
    requires Usable(x) ==> Ordinary(x, g) && !Shedding(x, g)
    ensures var e := StepDynamic(w, x.Level(g), x.pkgC, g, true, now).s;
      var start := if w.s.phase == OFF then g.staticCapW else FallbackLimit(w.s, g);
      && e.pl1 == Some(Min(Max(start, g.Floor()), CapOf(e, g))) && e.phase == PhaseAt(e.pl1.value, w.s.Top(g))
  {
    var top := w.s.Top(g);
    CapInRange(w.s, g, Max(g.ceilingW, g.staticCapW));
    ThermalRange(w, x.pkgC, g.Floor(), top, g, now);
    ThermalCeiling(w, x, g, now);
    var (t, ceiling) := Thermal(w, x.pkgC, g.Floor(), top, g, now);
    LevelOf(x, g);
    ResumeRuling(t, x, ceiling, top, g, now);
    var r := DynamicRuling(t, x.Level(g), ceiling, top, g, now);
    RulingKeepsThermal(t, x.Level(g), ceiling, top, g, true, now);
    CapInRange(w.s, g, r.pl1);
    FinishBounds(r, g, true, now);
  }

  lemma LevelOf(x: Sample, g: Config)
    ensures x.Level(g) in {Emergency, High} <==> Usable(x) && (!Ordinary(x, g) || Shedding(x, g))
  {
  }
}
