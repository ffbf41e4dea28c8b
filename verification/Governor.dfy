/** The Linux governor: one step maps a state, a sample and the clock to a new state and a list of actions.

    Watts, seconds and degrees are reals. An unset timestamp stands for minus infinity where the code uses that. */
module Governor {
  import opened Options

  const HARD_MAX_W := 45.0
  const REASSERT_S := 10.0
  const CUT_MIN_INTERVAL_S := 0.5
  const EMERGENCY_HOLD_S := 5.0
  const BACKOFF_MAX_S := 8.0

  datatype Mode = Off | Static | Dynamic

  datatype Config = Config(
    mode: Mode, staticCapW: real, ceilingW: real, floorW: real, burstW: real,
    shedRatio: real, emergencyRatio: real, recoverRatio: real,
    cutStepW: real, recoverStepW: real, recoverIntervalS: real, staleTimeoutS: real,
    thermalTrimC: Option<real>, thermalRecoverC: real, thermalStepW: real, thermalIntervalS: real)
  {
    /** What the validated bounds give and the governor relies on. */
    predicate Sound() {
      && staticCapW > 0.0 && 0.0 < floorW <= HARD_MAX_W && emergencyRatio > 0.0
      && cutStepW > 0.0 && recoverStepW > 0.0 && recoverIntervalS > 0.0 && staleTimeoutS > 0.0
      && thermalStepW > 0.0 && thermalIntervalS > 0.0
    }

    function Floor(): real { Min(floorW, staticCapW) }
  }

  datatype Phase = OFF | STATIC | NORMAL | TRIM | EMERGENCY | FALLBACK

  datatype GovState = GovState(
    phase: Phase, started: real,
    pl1: Option<real>, pl2: Option<real>,                     // the last commanded limits
    lastWrite: Option<real>, lastCut: Option<real>, lastValid: Option<real>,
    belowShedSince: Option<real>, belowRecoverSince: Option<real>,
    retryAt: Option<real>, backoffS: real,
    fwPl1: Option<real>, fwPl2: Option<real>,
    thermalCap: Option<real>, lastThermal: Option<real>)
  {
    function Cap1(w: real): real { Min(Min(w, HARD_MAX_W), OrMax(fwPl1)) }
    function Cap2(w: real): real { Min(Min(w, HARD_MAX_W), OrMax(fwPl2)) }

    function Top(g: Config): real { Cap1(Max(g.ceilingW, g.staticCapW)) }
  }

  /** None stands for anything that is not a finite number. */
  datatype Sample = Sample(pdtr: Option<real>, mean: Option<real>, acpw: Option<real>, pkgC: Option<real>) {
    predicate Valid() { pdtr.Some? && acpw.Some? && acpw.value > 0.0 }

    function Mean(): real
      requires pdtr.Some?
    {
      if mean.Some? then mean.value else pdtr.value
    }

    predicate AtEmergency(g: Config) { Valid() && pdtr.value >= acpw.value * g.emergencyRatio }

    /** Where the sample stands against the three thresholds; the emergency test uses the instantaneous power. */
    function Level(g: Config): Level {
      if !Valid() then Unknown
      else if AtEmergency(g) then Emergency
      else if Mean() >= acpw.value * g.shedRatio then High
      else if Mean() < acpw.value * g.recoverRatio then Low
      else Middle
    }
  }

  datatype Level = Unknown | Emergency | High | Middle | Low

  /** The daemon's verdict on the previous write. */
  datatype Readback = NoReadback | Verified | Mismatch

  datatype Action =
    | SetLimits(pl1: real, pl2: real)
    | StateEvent(left: Phase, entered: Phase)
    | FallbackEvent
    | RetryScheduled(backoffS: real)
    | Retry
    | EmergencyEvent
    | CutEvent(fromW: real, toW: real)
    | RecoverEvent(fromW: real, toW: real)
    | ThermalTrim(fromW: real, toW: real)
    | ThermalRecover(fromW: real, toW: real)

  function Min(a: real, b: real): real { if b < a then b else a }
  function Max(a: real, b: real): real { if b > a then b else a }

  function OrMax(fw: Option<real>): real {
    if fw.Some? && fw.value != 0.0 then fw.value else HARD_MAX_W
  }

  /** `now - since >= d`, where an unset time is minus infinity. */
  predicate Elapsed(since: Option<real>, now: real, d: real) {
    since.None? || now - since.value >= d
  }

  function Initial(now: real, fwPl1: Option<real>, fwPl2: Option<real>): GovState {
    GovState(OFF, now, None, None, None, None, None, None, None, None, 0.0, fwPl1, fwPl2, None, None)
  }

  /** The working copy of one step. */
  datatype Work = Work(s: GovState, actions: seq<Action>) {
    function Emit(a: Action): Work { Work(s, actions + [a]) }

    function Enter(after: Phase): Work {
      if after == s.phase then this
      else Work(s.(phase := after), actions + [StateEvent(s.phase, after)])
    }

    function Write(w1: real, w2: real, force: bool, now: real): Work {
      var pl1, pl2 := s.Cap1(w1), s.Cap2(w2);
      if !force && !Elapsed(s.lastWrite, now, REASSERT_S) && s.pl1 == Some(pl1) && s.pl2 == Some(pl2) then this
      else Work(s.(pl1 := Some(pl1), pl2 := Some(pl2), lastWrite := Some(now)), actions + [SetLimits(pl1, pl2)])
    }

    /** Never above what is already commanded. */
    function FallbackW(cap: real): real {
      if s.pl1.Some? then Min(cap, s.pl1.value) else cap
    }

    function Fallback(cap: real, now: real): Work {
      var w := if s.phase != FALLBACK then Emit(FallbackEvent) else this;
      var e := w.Enter(FALLBACK);
      var c := e.(s := e.s.(belowShedSince := None, belowRecoverSince := None));
      var fb := c.FallbackW(cap);
      c.Write(fb, fb, true, now)
    }
  }

  /** The thermal rule: the new working copy and the effective ceiling. */
  function Thermal(w: Work, temp: Option<real>, floor: real, ceiling: real, g: Config, now: real): (Work, real) {
    var s := w.s;
    var held := if s.thermalCap.None? || g.thermalTrimC.None? then ceiling
                else Min(Max(s.thermalCap.value, floor), ceiling);
    var due := g.thermalTrimC.Some? && temp.Some? && Elapsed(s.lastThermal, now, g.thermalIntervalS);
    var start := if s.pl1.Some? then Min(held, s.pl1.value) else held;
    var (v, cap) :=
      if due && temp.value >= g.thermalTrimC.value && start > floor then
        var lower := Max(floor, start - g.thermalStepW);
        (w.(s := s.(lastThermal := Some(now))).Emit(ThermalTrim(held, lower)), lower)
      else if due && temp.value < g.thermalTrimC.value && temp.value < g.thermalRecoverC && held < ceiling then
        var higher := Min(ceiling, held + g.thermalStepW);
        (w.(s := s.(lastThermal := Some(now))).Emit(ThermalRecover(held, higher)), higher)
      else (w, held);
    (v.(s := v.s.(thermalCap := if cap < ceiling then Some(cap) else None)), cap)
  }

  function StepOff(w: Work, g: Config, now: real): Work {
    var c := w.(s := w.s.(retryAt := None, thermalCap := None));
    var v := if c.s.phase != OFF then c.Write(g.staticCapW, g.staticCapW, true, now) else c;
    v.Enter(OFF)
  }

  function NextBackoff(b: real): real {
    if b <= 0.0 then 1.0 else Min(BACKOFF_MAX_S, b * 2.0)
  }

  function StepReadbackFailed(w: Work, g: Config, now: real): Work {
    var b := NextBackoff(w.s.backoffS);
    var c := w.(s := w.s.(backoffS := b, retryAt := Some(now + b)));
    var v := if c.s.phase != FALLBACK then c.Fallback(g.staticCapW, now) else c;
    v.Emit(RetryScheduled(b))
  }

  function StepWaiting(w: Work, x: Sample, g: Config, now: real): Work {
    var floor := g.Floor();
    if g.mode == Dynamic && x.AtEmergency(g) && (w.s.pl1.None? || w.s.pl1.value > floor) then
      w.Emit(EmergencyEvent).Write(floor, floor, true, now)
    else w
  }

  function StepStatic(w: Work, g: Config, force: bool, now: real): Work {
    var c := w.(s := w.s.(thermalCap := None));
    c.Enter(STATIC).Write(g.staticCapW, g.staticCapW, force || c.s.phase != STATIC, now)
  }

  function StepStale(w: Work, g: Config, retried: bool, now: real): Work {
    if w.s.phase != FALLBACK then w.(s := w.s.(retryAt := None)).Fallback(g.staticCapW, now)
    else
      var fb := w.FallbackW(g.staticCapW);
      w.Write(fb, fb, retried, now)
  }

  predicate Stale(s: GovState, g: Config, now: real) {
    now - (if s.lastValid.Some? then s.lastValid.value else s.started) >= g.staleTimeoutS
  }

  /** What rules 2 to 5 decide: the timers, the new phase and the new PL1. */
  datatype Ruling = Ruling(w: Work, phase: Phase, pl1: real)

  function EmergencyRule(w: Work, floor: real): Ruling {
    var v := if w.s.phase != EMERGENCY then w.Emit(EmergencyEvent) else w;
    Ruling(v.(s := v.s.(belowShedSince := None, belowRecoverSince := None)), EMERGENCY, floor)
  }

  function ShedRule(w: Work, pl1: real, hold: Phase, floor: real, g: Config, now: real): Ruling {
    var c := w.(s := w.s.(belowShedSince := None, belowRecoverSince := None));
    if w.s.phase == EMERGENCY then Ruling(c, hold, pl1)
    else if Elapsed(w.s.lastCut, now, CUT_MIN_INTERVAL_S) && pl1 > floor then
      var lower := Max(floor, pl1 - g.cutStepW);
      Ruling(c.(s := c.s.(lastCut := Some(now))).Emit(CutEvent(pl1, lower)), TRIM, lower)
    else Ruling(c, TRIM, pl1)
  }

  /** Leaving EMERGENCY takes five seconds below the shed threshold. */
  function HoldRule(w: Work, pl1: real, hold: Phase, now: real): Ruling {
    if w.s.belowShedSince.Some? && now - w.s.belowShedSince.value >= EMERGENCY_HOLD_S then
      Ruling(w.(s := w.s.(belowRecoverSince := None)), TRIM, pl1)
    else Ruling(w, hold, pl1)
  }

  function RecoverRule(w: Work, calm: bool, pl1: real, ceiling: real, top: real, g: Config, now: real): Ruling {
    var since := w.s.belowRecoverSince;
    if calm && since.Some? && now - since.value >= g.recoverIntervalS && pl1 < ceiling then
      var higher := Min(ceiling, pl1 + g.recoverStepW);
      Ruling(w.(s := w.s.(belowRecoverSince := Some(now))).Emit(RecoverEvent(pl1, higher)),
             if higher >= top then NORMAL else TRIM, higher)
    else
      var timer := if !calm then None else if since.None? then Some(now) else since;
      Ruling(w.(s := w.s.(belowRecoverSince := timer)), if pl1 >= top then NORMAL else TRIM, pl1)
  }

  function Rules(
    w: Work, level: Level, pl1: real, hold: Phase, floor: real, ceiling: real, top: real, g: Config, now: real)
    : Ruling
  {
    match level
    case Unknown => Ruling(w, hold, pl1)
    case Emergency => EmergencyRule(w, floor)
    case High => ShedRule(w, pl1, hold, floor, g, now)
    case _ =>
      var c := if w.s.belowShedSince.None? then w.(s := w.s.(belowShedSince := Some(now))) else w;
      if c.s.phase == EMERGENCY then HoldRule(c, pl1, hold, now)
      else RecoverRule(c, level == Low, pl1, ceiling, top, g, now)
  }

  predicate Running(p: Phase) { p in {NORMAL, TRIM, EMERGENCY} }

  predicate Resuming(s: GovState) { !Running(s.phase) || s.pl1.None? }

  /** Where a dynamic step starts: the commanded limit, or the fallback limit, or the static cap. */
  function StartW(w: Work, g: Config): real {
    if !Resuming(w.s) then w.s.pl1.value
    else if w.s.phase == FALLBACK then w.FallbackW(g.staticCapW)
    else g.staticCapW
  }

  /** The rules, applied under the effective ceiling. */
  function DynamicRuling(t: Work, level: Level, ceiling: real, top: real, g: Config, now: real): Ruling {
    var floor := g.Floor();
    var pl1 := Min(Max(StartW(t, g), floor), ceiling);
    var hold := if !Resuming(t.s) then t.s.phase else if pl1 >= top then NORMAL else TRIM;
    Rules(t, level, pl1, hold, floor, ceiling, top, g, now)
  }

  function FinishDynamic(r: Ruling, g: Config, force: bool, now: real): Work {
    var pl2 := if r.phase in {NORMAL, TRIM} then r.pl1 + g.burstW else r.pl1;
    r.w.Enter(r.phase).Write(r.pl1, pl2, force, now)
  }

  function StepDynamic(w: Work, level: Level, temp: Option<real>, g: Config, force: bool, now: real): Work {
    var top := w.s.Top(g);
    var (t, ceiling) := Thermal(w, temp, g.Floor(), top, g, now);
    FinishDynamic(DynamicRuling(t, level, ceiling, top, g, now), g, force || Resuming(t.s), now)
  }

  /** The step once no failed readback stands in the way. */
  function StepLive(a: Work, x: Sample, g: Config, now: real): Work {
    var waiting := a.s.phase == FALLBACK && a.s.retryAt.Some?;
    if waiting && now < a.s.retryAt.value then StepWaiting(a, x, g, now)
    else
      var b := if waiting then a.(s := a.s.(retryAt := None)).Emit(Retry) else a;
      var force := a.s.phase in {OFF, FALLBACK};
      if g.mode == Static then StepStatic(b, g, force, now)
      else if Stale(b.s, g, now) then StepStale(b, g, waiting, now)
      else StepDynamic(b, x.Level(g), x.pkgC, g, force, now)
  }

  /** `step`. */
  function Step(s: GovState, x: Sample, readback: Readback, g: Config, now: real): Work {
    var w := Work(if x.Valid() then s.(lastValid := Some(now)) else s, []);
    if g.mode == Off then StepOff(w, g, now)
    else if readback == Mismatch then StepReadbackFailed(w, g, now)
    else StepLive(if readback == Verified && s.phase != FALLBACK then w.(s := w.s.(backoffS := 0.0)) else w, x, g, now)
  }
}
