/** The other answers of the governor: emergencies and the hold after them, the thermal rule over runs, and when it
    enters, keeps and leaves each mode. */
module GovernorModes {
  import opened Options
  import opened Governor
  import opened GovernorLoop
  import opened GovernorRuns
  import opened GovernorProgress

  // ----- The emergency hold

  /** Five seconds below the shed threshold. */
  predicate HeldLongEnough(s: GovState, now: real) {
    s.belowShedSince.Some? && now - s.belowShedSince.value >= 5.0
  }

  /** In EMERGENCY, a usable sample that is not an emergency moves no limit but for the thermal ceiling; only after five
      seconds below the shed threshold is the emergency over. */
  ghost predicate Holds(s: GovState, e: GovState, shedding: bool, ceiling: real, now: real)
    requires s.pl1.Some?
  {
    && e.pl1 == Some(Min(s.pl1.value, ceiling)) && e.lastCut == s.lastCut
    && e.phase == (if !shedding && HeldLongEnough(s, now) then TRIM else EMERGENCY)
    && e.belowShedSince == (if shedding then None else if s.belowShedSince.None? then Some(now) else s.belowShedSince)
    && (shedding || e.phase == TRIM ==> e.belowRecoverSince == None)
    && (e.belowRecoverSince.Some? ==> e.belowRecoverSince == s.belowRecoverSince)
  }

  lemma HoldRuling(t: Work, level: Level, ceiling: real, top: real, g: Config, now: real)
    requires g.Sound() && t.s.phase == EMERGENCY && t.s.pl1.Some? && g.Floor() <= t.s.pl1.value
    requires g.Floor() <= ceiling <= top && level in {High, Middle, Low}
    ensures var r := DynamicRuling(t, level, ceiling, top, g, now);
      && r.pl1 == Min(t.s.pl1.value, ceiling) && g.Floor() <= r.pl1 && r.w.s.fwPl1 == t.s.fwPl1
      && r.phase == (if level != High && HeldLongEnough(t.s, now) then TRIM else EMERGENCY)
      && r.w.s.lastCut == t.s.lastCut
      && r.w.s.belowShedSince
         == (if level == High then None else if t.s.belowShedSince.None? then Some(now) else t.s.belowShedSince)
      && (level == High || r.phase == TRIM ==> r.w.s.belowRecoverSince == None)
      && (r.w.s.belowRecoverSince.Some? ==> r.w.s.belowRecoverSince == t.s.belowRecoverSince)
  {
  }

  lemma HoldOutcome(t: Work, level: Level, ceiling: real, top: real, g: Config, now: real)
    requires g.Sound() && FirmwareOk(t.s, g) && t.s.phase == EMERGENCY && t.s.pl1.Some? && g.Floor() <= t.s.pl1.value
    requires g.Floor() <= ceiling <= top == t.s.Top(g) && level in {High, Middle, Low}
    ensures Holds(t.s, FinishDynamic(DynamicRuling(t, level, ceiling, top, g, now), g, false, now).s,
                  level == High, ceiling, now)
  {
    HoldRuling(t, level, ceiling, top, g, now);
    Commanded(DynamicRuling(t, level, ceiling, top, g, now), g, now);
  }

  lemma SameHolds(a: GovState, s: GovState, e: GovState, shedding: bool, ceiling: real, now: real)
    requires SameForRules(a, s) && a.pl1.Some? && Holds(a, e, shedding, ceiling, now)
    ensures Holds(s, e, shedding, ceiling, now)
  {
  }

  lemma EmergencyHolds(s: GovState, x: Sample, readback: Readback, g: Config, now: real)
    requires WellGoverned(s, readback, g) && s.phase == EMERGENCY && Ordinary(x, g)
    ensures Holds(s, Step(s, x, readback, g, now).s, Shedding(x, g), EffectiveCeiling(s, x.pkgC, g, now), now)
  {
    var t, ceiling := GovernedStep(s, x, readback, g, now);
    SheddingIsHigh(x, g);
    CalmIsLow(x, g);
    HoldOutcome(t, x.Level(g), ceiling, s.Top(g), g, now);
    SameHolds(t.s, s, Step(s, x, readback, g, now).s, Shedding(x, g), ceiling, now);
  }

  lemma EmergencyRuling(t: Work, ceiling: real, top: real, g: Config, now: real)
    requires g.Sound() && t.s.pl1.Some? && g.Floor() <= ceiling <= top
    ensures var r := DynamicRuling(t, Emergency, ceiling, top, g, now);
      && r.pl1 == g.Floor() && r.phase == EMERGENCY && r.w.s.fwPl1 == t.s.fwPl1 && r.w.s.lastCut == t.s.lastCut
      && r.w.s.belowShedSince == None && r.w.s.belowRecoverSince == None
  {
  }

  /** A sample at the emergency threshold enters EMERGENCY at the floor, and no calm counts any more. */
  lemma EmergencyEnters(s: GovState, x: Sample, readback: Readback, g: Config, now: real)
    requires WellGoverned(s, readback, g) && Usable(x) && !Ordinary(x, g)
    ensures var e := Step(s, x, readback, g, now).s;
      && e.phase == EMERGENCY && e.pl1 == Some(g.Floor()) && e.pl2 == Some(e.Cap2(g.Floor()))
      && e.belowShedSince == None && e.belowRecoverSince == None && e.lastCut == s.lastCut
  {
    var t, ceiling := GovernedStep(s, x, readback, g, now);
    assert x.Level(g) == Emergency;
    EmergencyRuling(t, ceiling, s.Top(g), g, now);
    Commanded(DynamicRuling(t, Emergency, ceiling, s.Top(g), g, now), g, now);
  }

  // ----- When the rules apply

  /** In FALLBACK, before the retry. */
  predicate Waiting(s: GovState, now: real) { s.phase == FALLBACK && s.retryAt.Some? && now < s.retryAt.value }

  /** No usable sample for the stale timeout. */
  predicate Blind(s: GovState, x: Sample, g: Config, now: real) {
    !Usable(x) && now - (if s.lastValid.Some? then s.lastValid.value else s.started) >= g.staleTimeoutS
  }

  /** A dynamic step to which the rules apply. */
  ghost predicate Live(s: GovState, x: Sample, readback: Readback, g: Config, now: real) {
    && g.Sound() && g.mode == Dynamic && DynamicState(s, g)
    && readback != Mismatch && !Waiting(s, now) && !Blind(s, x, g, now)
  }

  lemma NotStale(s: GovState, x: Sample, backoff: real, retryAt: Option<real>, g: Config, now: real)
    requires g.Sound()
    ensures var v := (if x.Valid() then s.(lastValid := Some(now)) else s).(backoffS := backoff, retryAt := retryAt);
      Stale(v, g, now) <==> Blind(s, x, g, now)
  {
  }

  /** It is a dynamic step from the same state, but for its clocks of the last valid sample and the retry. */
  lemma LiveStep(s: GovState, x: Sample, readback: Readback, g: Config, now: real) returns (w: Work)
    requires Live(s, x, readback, g, now)
    ensures Step(s, x, readback, g, now)
            == StepDynamic(w, x.Level(g), x.pkgC, g, s.phase in {OFF, FALLBACK}, now)
    ensures w.s == s.(lastValid := w.s.lastValid, backoffS := w.s.backoffS, retryAt := w.s.retryAt)
    ensures Writes(w.actions) == [] && !Trimmed(w.actions)
  {
    var v := Work(if x.Valid() then s.(lastValid := Some(now)) else s, []);
    var a := if readback == Verified && s.phase != FALLBACK then v.(s := v.s.(backoffS := 0.0)) else v;
    NotStale(s, x, a.s.backoffS, a.s.retryAt, g, now);
    NotStale(s, x, a.s.backoffS, None, g, now);
    w := AfterRetry(a, x, g, now);
  }

  lemma AfterRetry(a: Work, x: Sample, g: Config, now: real) returns (w: Work)
    requires g.mode == Dynamic && a.actions == [] && !Waiting(a.s, now) && !Stale(a.s, g, now)
    ensures StepLive(a, x, g, now) == StepDynamic(w, x.Level(g), x.pkgC, g, a.s.phase in {OFF, FALLBACK}, now)
    ensures w.s == a.s.(retryAt := w.s.retryAt) && Writes(w.actions) == [] && !Trimmed(w.actions)
  {
    w := if a.s.phase == FALLBACK && a.s.retryAt.Some? then a.(s := a.s.(retryAt := None)).Emit(Retry) else a;
    EmitKeepsWrites(a.(s := a.s.(retryAt := None)), Retry);
  }

  /** A dynamic governor is in FALLBACK after a step exactly when a readback failed, it waits for its retry, or it has
      been blind for the stale timeout. */
  lemma FallbackExactly(s: GovState, x: Sample, readback: Readback, g: Config, now: real)
    requires g.Sound() && g.mode == Dynamic && DynamicState(s, g)
    ensures var e := Step(s, x, readback, g, now).s;
      && (e.phase == FALLBACK <==> readback == Mismatch || Waiting(s, now) || Blind(s, x, g, now))
      && (e.phase != FALLBACK ==> Running(e.phase))
  {
    if Live(s, x, readback, g, now) {
      var w := LiveStep(s, x, readback, g, now);
      DynamicOnce(w, x.Level(g), x.pkgC, g, s.phase in {OFF, FALLBACK}, now);
    } else {
      FallbackStays(s, x, readback, g, now);
    }
  }

  /** The fallback limit: the static cap, or what is commanded already if that is less. */
  function FallbackLimit(s: GovState, g: Config): real {
    if s.pl1.Some? && s.pl1.value < g.staticCapW then s.pl1.value else g.staticCapW
  }

  /** Entering FALLBACK commands the fallback limit for both terms; waiting in it commands nothing but the floor in an
      emergency. */
  lemma FallbackStays(s: GovState, x: Sample, readback: Readback, g: Config, now: real)
    requires g.Sound() && g.mode == Dynamic && DynamicState(s, g) && !Live(s, x, readback, g, now)
    ensures Stuck(s, Step(s, x, readback, g, now), x, readback, g, now)
  {
    var v := Work(if x.Valid() then s.(lastValid := Some(now)) else s, []);
    if readback == Mismatch {
      MismatchStuck(s, v, x, g, now);
    } else {
      var a := if readback == Verified && s.phase != FALLBACK then v.(s := v.s.(backoffS := 0.0)) else v;
      NotStale(s, x, a.s.backoffS, a.s.retryAt, g, now);
      NotStale(s, x, a.s.backoffS, None, g, now);
      if Waiting(s, now) {
        WaitingStuck(s, a, x, readback, g, now);
      } else {
        StaleStuck(s, a, x, readback, g, now);
      }
    }
  }

  /** The outcome of a dynamic step to which the rules do not apply. */
  ghost predicate Stuck(s: GovState, w: Work, x: Sample, readback: Readback, g: Config, now: real) {
    && w.s.phase == FALLBACK
    && (s.phase != FALLBACK || (readback != Mismatch && !Waiting(s, now)) ==>
          w.s.pl1 == Some(s.Cap1(FallbackLimit(s, g))) && w.s.pl2 == Some(s.Cap2(FallbackLimit(s, g))))
    && (s.phase != FALLBACK ==> w.s.lastWrite == Some(now))
    && (s.phase == FALLBACK && readback == Mismatch ==> w.s.pl1 == s.pl1 && w.s.pl2 == s.pl2)
    && (readback != Mismatch && Waiting(s, now) && !(Usable(x) && !Ordinary(x, g)) ==>
          w.actions == [] && w.s.pl1 == s.pl1 && w.s.pl2 == s.pl2)
  }

  /** The two states agree in all but their clocks. */
  ghost predicate SameButClocks(a: GovState, s: GovState) {
    a == s.(lastValid := a.lastValid, backoffS := a.backoffS, retryAt := a.retryAt)
  }

  lemma MismatchStuck(s: GovState, v: Work, x: Sample, g: Config, now: real)
    requires SameButClocks(v.s, s)
    ensures Stuck(s, StepReadbackFailed(v, g, now), x, Mismatch, g, now)
  {
  }

  lemma WaitingStuck(s: GovState, a: Work, x: Sample, readback: Readback, g: Config, now: real)
    requires SameButClocks(a.s, s) && a.actions == [] && Waiting(s, now) && a.s.retryAt == s.retryAt
    requires g.mode == Dynamic && readback != Mismatch
    ensures Stuck(s, StepLive(a, x, g, now), x, readback, g, now)
  {
  }

  lemma StaleStuck(s: GovState, a: Work, x: Sample, readback: Readback, g: Config, now: real)
    requires SameButClocks(a.s, s) && !Waiting(s, now) && a.s.retryAt == s.retryAt && Stale(a.s, g, now)
    requires g.mode == Dynamic && readback != Mismatch
    ensures Stuck(s, StepLive(a, x, g, now), x, readback, g, now)
  {
  }

  // ----- What a limit is capped at

  lemma CapMeans(s: GovState, w: real)
    ensures s.Cap1(w) <= w && s.Cap1(w) <= 45.0
    ensures s.fwPl1.Some? && s.fwPl1.value != 0.0 ==> s.Cap1(w) <= s.fwPl1.value
    ensures s.Cap1(w) == w || s.Cap1(w) == 45.0 || s.fwPl1 == Some(s.Cap1(w))
    ensures s.Cap2(w) <= w && s.Cap2(w) <= 45.0
    ensures s.fwPl2.Some? && s.fwPl2.value != 0.0 ==> s.Cap2(w) <= s.fwPl2.value
    ensures s.Cap2(w) == w || s.Cap2(w) == 45.0 || s.fwPl2 == Some(s.Cap2(w))
  {
  }

  // ----- Static mode and off

  /** Static mode commands the static cap for both terms, at every step that does not wait for a retry. */
  lemma StaticCommandsCap(s: GovState, x: Sample, readback: Readback, g: Config, now: real)
    requires g.mode == Static && readback != Mismatch && !Waiting(s, now)
    ensures var e := Step(s, x, readback, g, now).s;
      && e.phase == STATIC && e.pl1 == Some(s.Cap1(g.staticCapW)) && e.pl2 == Some(s.Cap2(g.staticCapW))
      && e.thermalCap == None
  {
    var v := Work(if x.Valid() then s.(lastValid := Some(now)) else s, []);
    var a := if readback == Verified && s.phase != FALLBACK then v.(s := v.s.(backoffS := 0.0)) else v;
    var b := if a.s.phase == FALLBACK && a.s.retryAt.Some? then a.(s := a.s.(retryAt := None)).Emit(Retry) else a;
    StaticOutcome(b, g, a.s.phase in {OFF, FALLBACK}, now);
  }

  lemma StaticOutcome(w: Work, g: Config, force: bool, now: real)
    ensures var e := StepStatic(w, g, force, now).s;
      && e.phase == STATIC && e.pl1 == Some(w.s.Cap1(g.staticCapW)) && e.pl2 == Some(w.s.Cap2(g.staticCapW))
      && e.thermalCap == None
  {
  }

  /** Switching off commands the static cap once, and nothing after that. */
  lemma OffCommandsOnce(s: GovState, x: Sample, readback: Readback, g: Config, now: real)
    requires g.mode == Off
    ensures var w := Step(s, x, readback, g, now);
      && w.s.phase == OFF && w.s.thermalCap == None && w.s.retryAt == None
      && Writes(w.actions) == if s.phase == OFF then [] else [(s.Cap1(g.staticCapW), s.Cap2(g.staticCapW))]
  {
    var c := Work(if x.Valid() then s.(lastValid := Some(now)) else s, []);
    var d := c.(s := c.s.(retryAt := None, thermalCap := None));
    WriteOnce(d, g.staticCapW, g.staticCapW, true, now);
    EnterKeepsWrites(if s.phase != OFF then d.Write(g.staticCapW, g.staticCapW, true, now) else d, OFF);
  }

  // ----- When the limits are written

  /** The last write is less than ten seconds old. */
  predicate RecentWrite(s: GovState, now: real) { s.lastWrite.Some? && now - s.lastWrite.value < 10.0 }

  lemma WriteExactly(w: Work, w1: real, w2: real, force: bool, now: real)
    requires Writes(w.actions) == []
    ensures var v := w.Write(w1, w2, force, now);
      && (Writes(v.actions) == [] <==> !force && RecentWrite(w.s, now) && v.s.pl1 == w.s.pl1 && v.s.pl2 == w.s.pl2)
      && v.s.lastWrite == if Writes(v.actions) == [] then w.s.lastWrite else Some(now)
  {
    WritesAppend(w.actions, SetLimits(w.s.Cap1(w1), w.s.Cap2(w2)));
  }

  lemma FinishWrites(r: Ruling, g: Config, force: bool, now: real)
    requires Writes(r.w.actions) == []
    ensures var v := FinishDynamic(r, g, force, now);
      && (Writes(v.actions) == [] <==>
            !force && RecentWrite(r.w.s, now) && v.s.pl1 == r.w.s.pl1 && v.s.pl2 == r.w.s.pl2)
      && v.s.lastWrite == if Writes(v.actions) == [] then r.w.s.lastWrite else Some(now)
  {
    EnterKeepsWrites(r.w, r.phase);
    WriteExactly(r.w.Enter(r.phase), r.pl1, if r.phase in {NORMAL, TRIM} then r.pl1 + g.burstW else r.pl1, force, now);
  }

  lemma DynamicWrites(w: Work, level: Level, temp: Option<real>, g: Config, force: bool, now: real)
    requires Writes(w.actions) == []
    ensures var v := StepDynamic(w, level, temp, g, force, now);
      && (Writes(v.actions) == [] <==>
            && !force && !Resuming(w.s) && RecentWrite(w.s, now) && v.s.pl1 == w.s.pl1 && v.s.pl2 == w.s.pl2)
      && v.s.lastWrite == if Writes(v.actions) == [] then w.s.lastWrite else Some(now)
  {
    var floor, top := g.Floor(), w.s.Top(g);
    var (t, ceiling) := Thermal(w, temp, floor, top, g, now);
    ThermalSilent(w, temp, floor, top, g, now);
    var pl1 := Min(Max(StartW(t, g), floor), ceiling);
    var hold := if !Resuming(t.s) then t.s.phase else if pl1 >= top then NORMAL else TRIM;
    RulesSilent(t, level, pl1, hold, floor, ceiling, top, g, now);
    FinishWrites(DynamicRuling(t, level, ceiling, top, g, now), g, force || Resuming(t.s), now);
  }

  /** A running governor writes exactly when a limit changes or the last write is ten seconds old, and one that starts
      or leaves FALLBACK always does. */
  lemma LiveWritesExactly(s: GovState, x: Sample, readback: Readback, g: Config, now: real)
    requires Live(s, x, readback, g, now)
    ensures var w := Step(s, x, readback, g, now);
      && (Writes(w.actions) == [] <==>
            Running(s.phase) && RecentWrite(s, now) && w.s.pl1 == s.pl1 && w.s.pl2 == s.pl2)
      && w.s.lastWrite == if Writes(w.actions) == [] then s.lastWrite else Some(now)
  {
    var w := LiveStep(s, x, readback, g, now);
    DynamicWrites(w, x.Level(g), x.pkgC, g, s.phase in {OFF, FALLBACK}, now);
  }

  /** The same in static mode. */
  lemma StaticWritesExactly(s: GovState, x: Sample, readback: Readback, g: Config, now: real)
    requires g.mode == Static && readback != Mismatch && s.phase != FALLBACK
    ensures var w := Step(s, x, readback, g, now);
      && (Writes(w.actions) == [] <==>
            s.phase == STATIC && RecentWrite(s, now) && w.s.pl1 == s.pl1 && w.s.pl2 == s.pl2)
      && w.s.lastWrite == if Writes(w.actions) == [] then s.lastWrite else Some(now)
  {
    var v := if x.Valid() then s.(lastValid := Some(now)) else s;
    var c := Work(v.(backoffS := if readback == Verified then 0.0 else s.backoffS, thermalCap := None), []);
    EnterKeepsWrites(c, STATIC);
    WriteExactly(c.Enter(STATIC), g.staticCapW, g.staticCapW, s.phase != STATIC, now);
  }

  ghost predicate SecondSet(s: GovState, e: GovState, g: Config) {
    && e.pl1.Some? && e.pl2 == Some(e.Cap2(e.pl1.value + if e.phase == EMERGENCY then 0.0 else g.burstW))
    && e.fwPl2 == s.fwPl2
  }

  /** The short-term limit is the long-term one plus the burst, outside an emergency, within its own caps. */
  lemma SecondLimit(s: GovState, x: Sample, readback: Readback, g: Config, now: real)
    requires Live(s, x, readback, g, now)
    ensures SecondSet(s, Step(s, x, readback, g, now).s, g)
  {
    var w := LiveStep(s, x, readback, g, now);
    SecondDynamic(w, x.Level(g), x.pkgC, g, s.phase in {OFF, FALLBACK}, now);
  }

  lemma SecondDynamic(w: Work, level: Level, temp: Option<real>, g: Config, force: bool, now: real)
    requires g.Sound() && DynamicState(w.s, g) && !Trimmed(w.actions)
    ensures SecondSet(w.s, StepDynamic(w, level, temp, g, force, now).s, g)
  {
    var top := w.s.Top(g);
    CapInRange(w.s, g, Max(g.ceilingW, g.staticCapW));
    ThermalRange(w, temp, g.Floor(), top, g, now);
    var (t, ceiling) := Thermal(w, temp, g.Floor(), top, g, now);
    var pl1 := RulingBounds(t, level, ceiling, top, g, now);
    RulingKeepsFirmware(t, level, ceiling, top, g, now);
    FinishSecond(DynamicRuling(t, level, ceiling, top, g, now), g, force || Resuming(t.s), now);
  }

  lemma RulingKeepsFirmware(t: Work, level: Level, ceiling: real, top: real, g: Config, now: real)
    ensures DynamicRuling(t, level, ceiling, top, g, now).w.s.fwPl2 == t.s.fwPl2
  {
  }

  lemma FinishSecond(r: Ruling, g: Config, force: bool, now: real)
    requires g.Sound() && FirmwareOk(r.w.s, g) && g.Floor() <= r.pl1 <= r.w.s.Top(g) && Running(r.phase)
    ensures SecondSet(r.w.s, FinishDynamic(r, g, force, now).s, g)
  {
    CapInRange(r.w.s, g, r.pl1);
  }

  // ----- Without a usable sample

  /** The outcome for a running governor that has no usable sample, but not for long yet: phase, timers and limit stay,
      under the thermal ceiling. */
  ghost predicate Stays(s: GovState, e: GovState, ceiling: real)
    requires s.pl1.Some?
  {
    && e.phase == s.phase && e.pl1 == Some(Min(s.pl1.value, ceiling))
    && e.lastCut == s.lastCut && e.belowShedSince == s.belowShedSince && e.belowRecoverSince == s.belowRecoverSince
  }

  lemma UnknownOutcome(t: Work, ceiling: real, top: real, g: Config, now: real)
    requires g.Sound() && FirmwareOk(t.s, g) && Running(t.s.phase) && t.s.pl1.Some? && g.Floor() <= t.s.pl1.value
    requires g.Floor() <= ceiling <= top == t.s.Top(g)
    ensures Stays(t.s, FinishDynamic(DynamicRuling(t, Unknown, ceiling, top, g, now), g, false, now).s, ceiling)
  {
    var r := DynamicRuling(t, Unknown, ceiling, top, g, now);
    assert r == Ruling(t, t.s.phase, Min(t.s.pl1.value, ceiling));
    Commanded(r, g, now);
  }

  lemma UnknownDynamic(w: Work, temp: Option<real>, g: Config, now: real)
    requires g.Sound() && DynamicState(w.s, g) && Running(w.s.phase)
    ensures Stays(w.s, StepDynamic(w, Unknown, temp, g, false, now).s, EffectiveCeiling(w.s, temp, g, now))
  {
    var top := w.s.Top(g);
    CapInRange(w.s, g, Max(g.ceilingW, g.staticCapW));
    ThermalRange(w, temp, g.Floor(), top, g, now);
    var (t, ceiling) := Thermal(w, temp, g.Floor(), top, g, now);
    assert ceiling == EffectiveCeiling(w.s, temp, g, now);
    UnknownOutcome(t, ceiling, top, g, now);
  }

  lemma SameCeiling(a: GovState, s: GovState, temp: Option<real>, g: Config, now: real)
    requires a == s.(lastValid := a.lastValid, backoffS := a.backoffS, retryAt := a.retryAt)
    ensures EffectiveCeiling(a, temp, g, now) == EffectiveCeiling(s, temp, g, now)
  {
  }

  lemma BlindHolds(s: GovState, x: Sample, readback: Readback, g: Config, now: real)
    requires Live(s, x, readback, g, now) && !Usable(x) && Running(s.phase)
    ensures Stays(s, Step(s, x, readback, g, now).s, EffectiveCeiling(s, x.pkgC, g, now))
  {
    var w := LiveStep(s, x, readback, g, now);
    UnknownDynamic(w, x.pkgC, g, now);
    SameCeiling(w.s, s, x.pkgC, g, now);
  }
}
