/** What the governor answers to each kind of sample: cuts above the shed threshold, recoveries below the recovery
    threshold, the hold after an emergency, and the thermal rule. */
module GovernorProgress {
  import opened Options
  import opened Governor
  import opened GovernorLoop
  import opened GovernorRuns

  // ----- Samples, in terms of their numbers

  predicate Usable(x: Sample) { x.pdtr.Some? && x.acpw.Some? && x.acpw.value > 0.0 }

  /** The mean of the last second, or the instantaneous power where there is none. */
  function Average(x: Sample): real
    requires Usable(x)
  {
    if x.mean.Some? then x.mean.value else x.pdtr.value
  }

  predicate Below(x: Sample, ratio: real)
    requires Usable(x)
  {
    Average(x) < x.acpw.value * ratio
  }

  /** The instantaneous power is below the emergency threshold. */
  predicate Ordinary(x: Sample, g: Config) {
    Usable(x) && x.pdtr.value < x.acpw.value * g.emergencyRatio
  }

  predicate Shedding(x: Sample, g: Config) { Ordinary(x, g) && !Below(x, g.shedRatio) }
  predicate Calm(x: Sample, g: Config) { Ordinary(x, g) && Below(x, g.shedRatio) && Below(x, g.recoverRatio) }
  predicate Uneasy(x: Sample, g: Config) { Ordinary(x, g) && Below(x, g.shedRatio) && !Below(x, g.recoverRatio) }

  // ----- A governed step on a usable sample

  /** The governor is running and its last write read back. */
  ghost predicate WellGoverned(s: GovState, readback: Readback, g: Config) {
    g.Sound() && g.mode == Dynamic && DynamicState(s, g) && Running(s.phase) && readback != Mismatch
  }

  /** What such a step does after the thermal rule has set the ceiling. */
  lemma GovernedStep(s: GovState, x: Sample, readback: Readback, g: Config, now: real)
    returns (t: Work, ceiling: real)
    requires WellGoverned(s, readback, g) && Usable(x)
    ensures ceiling == EffectiveCeiling(s, x.pkgC, g, now) && g.Floor() <= ceiling <= s.Top(g)
    ensures SameForRules(t.s, s) && t.s.pl2 == s.pl2 && t.s.fwPl2 == s.fwPl2 && t.s.lastWrite == s.lastWrite
    ensures Step(s, x, readback, g, now)
            == FinishDynamic(DynamicRuling(t, x.Level(g), ceiling, s.Top(g), g, now), g, false, now)
  {
    var w := Work(s.(lastValid := Some(now)), []);
    var a := if readback == Verified then w.(s := w.s.(backoffS := 0.0)) else w;
    CapInRange(s, g, Max(g.ceilingW, g.staticCapW));
    ThermalRange(a, x.pkgC, g.Floor(), s.Top(g), g, now);
    var (v, c) := Thermal(a, x.pkgC, g.Floor(), s.Top(g), g, now);
    t, ceiling := v, c;
    assert Step(s, x, readback, g, now) == StepDynamic(a, x.Level(g), x.pkgC, g, false, now);
  }

  /** What the rules decide is what is commanded. */
  lemma Commanded(r: Ruling, g: Config, now: real)
    requires g.Sound() && FirmwareOk(r.w.s, g) && g.Floor() <= r.pl1 <= r.w.s.Top(g)
    ensures var e := FinishDynamic(r, g, false, now).s;
      && e.pl1 == Some(r.pl1) && e.phase == r.phase
      && e.pl2 == Some(e.Cap2(if r.phase in {NORMAL, TRIM} then r.pl1 + g.burstW else r.pl1))
      && e.lastCut == r.w.s.lastCut
      && e.belowShedSince == r.w.s.belowShedSince && e.belowRecoverSince == r.w.s.belowRecoverSince
  {
    CapInRange(r.w.s, g, r.pl1);
  }

  /** The two states agree in what the rules look at. */
  ghost predicate SameForRules(a: GovState, b: GovState) {
    && a.phase == b.phase && a.pl1 == b.pl1 && a.lastCut == b.lastCut
    && a.belowShedSince == b.belowShedSince && a.belowRecoverSince == b.belowRecoverSince && a.fwPl1 == b.fwPl1
  }

  // ----- Above the shed threshold

  ghost predicate CutDue(s: GovState, now: real) { s.lastCut.Some? ==> now - s.lastCut.value >= 0.5 }

  lemma HighRuling(t: Work, ceiling: real, top: real, g: Config, now: real)
    requires g.Sound() && t.s.phase in {NORMAL, TRIM} && t.s.pl1.Some? && g.Floor() <= t.s.pl1.value
    requires g.Floor() <= ceiling <= top
    ensures var r := DynamicRuling(t, High, ceiling, top, g, now); var limit := Min(t.s.pl1.value, ceiling);
      && r.phase == TRIM && g.Floor() <= r.pl1 <= ceiling && r.w.s.fwPl1 == t.s.fwPl1
      && r.pl1 == (if CutDue(t.s, now) then Max(g.Floor(), limit - g.cutStepW) else limit)
      && r.w.s.lastCut == (if CutDue(t.s, now) && limit > g.Floor() then Some(now) else t.s.lastCut)
      && r.w.s.belowShedSince == None && r.w.s.belowRecoverSince == None
  {
  }

  /** The outcome of a governed step on a sample at or above the shed threshold. */
  ghost predicate Cut(s: GovState, e: GovState, ceiling: real, g: Config, now: real)
    requires s.pl1.Some?
  {
    var limit := Min(s.pl1.value, ceiling);
    && e.phase == TRIM
    && e.pl1 == Some(if CutDue(s, now) then Max(g.Floor(), limit - g.cutStepW) else limit)
    && e.lastCut == (if CutDue(s, now) && limit > g.Floor() then Some(now) else s.lastCut)
    && e.belowShedSince == None && e.belowRecoverSince == None
  }

  lemma HighOutcome(t: Work, ceiling: real, top: real, g: Config, now: real)
    requires g.Sound() && FirmwareOk(t.s, g) && t.s.phase in {NORMAL, TRIM} && t.s.pl1.Some?
    requires g.Floor() <= t.s.pl1.value && g.Floor() <= ceiling <= top == t.s.Top(g)
    ensures Cut(t.s, FinishDynamic(DynamicRuling(t, High, ceiling, top, g, now), g, false, now).s, ceiling, g, now)
  {
    HighRuling(t, ceiling, top, g, now);
    Commanded(DynamicRuling(t, High, ceiling, top, g, now), g, now);
  }

  lemma SameCut(a: GovState, s: GovState, e: GovState, ceiling: real, g: Config, now: real)
    requires SameForRules(a, s) && a.pl1.Some? && Cut(a, e, ceiling, g, now)
    ensures Cut(s, e, ceiling, g, now)
  {
  }

  lemma SheddingIsHigh(x: Sample, g: Config)
    requires Usable(x)
    ensures Shedding(x, g) <==> x.Level(g) == High
  {
  }

  /** In NORMAL or TRIM a sample at or above the shed threshold trims: PL1 goes down by the cut step, or to the floor,
      unless the last cut is less than half a second old; the thermal ceiling may take it further down. */
  lemma ShedCuts(s: GovState, x: Sample, readback: Readback, g: Config, now: real)
    requires WellGoverned(s, readback, g) && s.phase in {NORMAL, TRIM} && Shedding(x, g)
    ensures Cut(s, Step(s, x, readback, g, now).s, EffectiveCeiling(s, x.pkgC, g, now), g, now)
  {
    var t, ceiling := GovernedStep(s, x, readback, g, now);
    SheddingIsHigh(x, g);
    HighOutcome(t, ceiling, s.Top(g), g, now);
    SameCut(t.s, s, Step(s, x, readback, g, now).s, ceiling, g, now);
  }

  /** No readback failed at any tick of the run. */
  ghost predicate AllReadBack(l: Loop, inputs: seq<Input>) {
    forall k | 0 <= k < |inputs| :: Run(l, inputs[..k]).readback != Mismatch
  }

  ghost predicate Spaced(inputs: seq<Input>, d: real) {
    forall i | 1 <= i < |inputs| :: inputs[i].now - inputs[i - 1].now >= d
  }

  lemma FrontOf(l: Loop, inputs: seq<Input>, g: Config, d: real)
    requires inputs != [] && AllReadBack(l, inputs) && DynamicRun(inputs, g) && Spaced(inputs, d)
    ensures var front := inputs[..|inputs| - 1];
      AllReadBack(l, front) && DynamicRun(front, g) && Spaced(front, d) && Run(l, front).readback != Mismatch
  {
    var front := inputs[..|inputs| - 1];
    forall k | 0 <= k < |front|
      ensures Run(l, front[..k]).readback != Mismatch
    {
      assert front[..k] == inputs[..k];
    }
  }

  /** After n cuts. */
  ghost predicate CutBy(s: GovState, e: GovState, n: nat, g: Config)
    requires s.pl1.Some?
  {
    && DynamicState(e, g) && e.phase in {NORMAL, TRIM} && e.pl1.Some?
    && e.pl1.value <= Max(g.Floor(), s.pl1.value - Times(n, g.cutStepW))
  }

  /** The time of the last cut is an old one, or that of an input. */
  ghost predicate CutTimed(last: Option<real>, before: Option<real>, inputs: seq<Input>) {
    last == before || exists i :: 0 <= i < |inputs| && last == Some(inputs[i].now)
  }

  lemma OneMoreCut(s: GovState, b: Loop, i: Input, n: nat, g: Config)
    requires s.pl1.Some? && CutBy(s, b.gov, n, g) && WellGoverned(b.gov, b.readback, g) && i.config == g
    requires Shedding(i.sample, g) && CutDue(b.gov, i.now)
    ensures var e := Tick(b, i).gov;
      CutBy(s, e, n + 1, g) && e.lastCut in {b.gov.lastCut, Some(i.now)}
  {
    TickGov(b, i);
    ShedCuts(b.gov, i.sample, b.readback, g, i.now);
    StepMove(b.gov, i.sample, b.readback, g, i.now);
  }

  /** With the samples half a second apart, the next cut is due. */
  lemma NextCutDue(s: GovState, b: GovState, inputs: seq<Input>)
    requires inputs != [] && Spaced(inputs, 0.5) && CutDue(s, inputs[|inputs| - 1].now)
    requires CutTimed(b.lastCut, s.lastCut, inputs[..|inputs| - 1])
    ensures CutDue(b, inputs[|inputs| - 1].now)
  {
    SpacedFar(inputs, 0.5);
  }

  lemma CutTimedOn(last: Option<real>, b: Option<real>, before: Option<real>, inputs: seq<Input>)
    requires inputs != [] && CutTimed(b, before, inputs[..|inputs| - 1])
    requires last in {b, Some(inputs[|inputs| - 1].now)}
    ensures CutTimed(last, before, inputs)
  {
    var n := |inputs| - 1;
    if last == Some(inputs[n].now) {
      assert last == Some(inputs[n].now);
    } else if b != before {
      var i :| 0 <= i < n && b == Some(inputs[..n][i].now);
      assert last == Some(inputs[i].now);
    }
  }

  /** From NORMAL or TRIM, nothing but samples at or above the shed threshold, half a second apart, all written limits
      read back, and the first cut is due. */
  ghost predicate Sheds(l: Loop, inputs: seq<Input>, g: Config) {
    && DynamicRun(inputs, g) && AllReadBack(l, inputs) && Spaced(inputs, 0.5)
    && DynamicState(l.gov, g) && l.gov.phase in {NORMAL, TRIM}
    && forall i | 0 <= i < |inputs| :: Shedding(inputs[i].sample, g) && CutDue(l.gov, inputs[i].now)
  }

  ghost predicate ShedBy(l: Loop, e: GovState, inputs: seq<Input>, g: Config)
    requires l.gov.pl1.Some?
  {
    CutBy(l.gov, e, |inputs|, g) && CutTimed(e.lastCut, l.gov.lastCut, inputs)
  }

  lemma ShedsFront(l: Loop, inputs: seq<Input>, g: Config)
    requires inputs != [] && Sheds(l, inputs, g)
    ensures Sheds(l, inputs[..|inputs| - 1], g) && Run(l, inputs[..|inputs| - 1]).readback != Mismatch
  {
    FrontOf(l, inputs, g, 0.5);
  }

  lemma ShedOnce(l: Loop, inputs: seq<Input>, b: Loop, g: Config)
    requires inputs != [] && Sheds(l, inputs, g) && l.gov.pl1.Some?
    requires b.readback != Mismatch && ShedBy(l, b.gov, inputs[..|inputs| - 1], g)
    ensures ShedBy(l, Tick(b, inputs[|inputs| - 1]).gov, inputs, g)
  {
    var n := |inputs| - 1;
    NextCutDue(l.gov, b.gov, inputs);
    OneMoreCut(l.gov, b, inputs[n], n, g);
    CutTimedOn(Tick(b, inputs[n]).gov.lastCut, b.gov.lastCut, l.gov.lastCut, inputs);
  }

  /** n such samples cut PL1 by n steps, or to the floor. */
  lemma {:induction false} SheddingRun(l: Loop, inputs: seq<Input>, g: Config)
    requires Sheds(l, inputs, g) && l.gov.pl1.Some?
    ensures ShedBy(l, Run(l, inputs).gov, inputs, g)
    decreases |inputs|
  {
    if inputs != [] {
      ShedsFront(l, inputs, g);
      SheddingRun(l, inputs[..|inputs| - 1], g);
      ShedOnce(l, inputs, Run(l, inputs[..|inputs| - 1]), g);
    }
  }

  lemma {:induction false} SpacedFar(inputs: seq<Input>, d: real)
    requires Spaced(inputs, d) && d >= 0.0 && inputs != []
    ensures forall i | 0 <= i < |inputs| - 1 :: inputs[|inputs| - 1].now - inputs[i].now >= d
    decreases |inputs|
  {
    if |inputs| > 1 {
      var front := inputs[..|inputs| - 1];
      SpacedFar(front, d);
      assert inputs[|inputs| - 1].now - inputs[|inputs| - 2].now >= d;
    }
  }

  // ----- Below the recovery threshold

  predicate RecoverDue(s: GovState, g: Config, now: real) {
    s.belowRecoverSince.Some? && now - s.belowRecoverSince.value >= g.recoverIntervalS
  }

  /** The phase of a governor that is neither in an emergency nor in FALLBACK. */
  function PhaseAt(pl1: real, top: real): Phase { if pl1 < top then TRIM else NORMAL }

  /** The outcome of a governed step, outside an emergency, on a calm sample. */
  ghost predicate Climb(s: GovState, e: GovState, ceiling: real, g: Config, now: real)
    requires s.pl1.Some?
  {
    var limit := Min(s.pl1.value, ceiling);
    && e.pl1 == Some(if RecoverDue(s, g, now) then Min(ceiling, limit + g.recoverStepW) else limit)
    && e.phase == PhaseAt(e.pl1.value, s.Top(g))
    && e.belowRecoverSince == (if s.belowRecoverSince.None? || (RecoverDue(s, g, now) && limit < ceiling) then Some(now)
                               else s.belowRecoverSince)
    && e.belowShedSince == (if s.belowShedSince.None? then Some(now) else s.belowShedSince)
    && e.lastCut == s.lastCut
  }

  /** The outcome on a sample between the two thresholds: the calm is over. */
  ghost predicate Hold(s: GovState, e: GovState, ceiling: real, g: Config, now: real)
    requires s.pl1.Some?
  {
    && e.pl1 == Some(Min(s.pl1.value, ceiling)) && e.phase == PhaseAt(e.pl1.value, s.Top(g))
    && e.belowRecoverSince == None && e.lastCut == s.lastCut
    && e.belowShedSince == (if s.belowShedSince.None? then Some(now) else s.belowShedSince)
  }

  lemma LowRuling(t: Work, level: Level, ceiling: real, top: real, g: Config, now: real)
    requires g.Sound() && t.s.phase in {NORMAL, TRIM} && t.s.pl1.Some? && g.Floor() <= t.s.pl1.value
    requires g.Floor() <= ceiling <= top && level in {Low, Middle}
    ensures var r := DynamicRuling(t, level, ceiling, top, g, now); var limit := Min(t.s.pl1.value, ceiling);
      && g.Floor() <= r.pl1 <= ceiling && r.w.s.fwPl1 == t.s.fwPl1 && r.phase == PhaseAt(r.pl1, top)
      && r.w.s.lastCut == t.s.lastCut
      && r.w.s.belowShedSince == (if t.s.belowShedSince.None? then Some(now) else t.s.belowShedSince)
      && (level == Middle ==> r.pl1 == limit && r.w.s.belowRecoverSince == None)
      && (level == Low ==>
            && r.pl1 == (if RecoverDue(t.s, g, now) then Min(ceiling, limit + g.recoverStepW) else limit)
            && r.w.s.belowRecoverSince
               == if t.s.belowRecoverSince.None? || (RecoverDue(t.s, g, now) && limit < ceiling) then Some(now)
                  else t.s.belowRecoverSince)
  {
  }

  lemma LowOutcome(t: Work, level: Level, ceiling: real, top: real, g: Config, now: real)
    requires g.Sound() && FirmwareOk(t.s, g) && t.s.phase in {NORMAL, TRIM} && t.s.pl1.Some? && level in {Low, Middle}
    requires g.Floor() <= t.s.pl1.value && g.Floor() <= ceiling <= top == t.s.Top(g)
    ensures var e := FinishDynamic(DynamicRuling(t, level, ceiling, top, g, now), g, false, now).s;
      if level == Low then Climb(t.s, e, ceiling, g, now) else Hold(t.s, e, ceiling, g, now)
  {
    LowRuling(t, level, ceiling, top, g, now);
    Commanded(DynamicRuling(t, level, ceiling, top, g, now), g, now);
  }

  lemma SameClimb(a: GovState, s: GovState, e: GovState, ceiling: real, g: Config, now: real)
    requires SameForRules(a, s) && a.pl1.Some?
    ensures Climb(a, e, ceiling, g, now) ==> Climb(s, e, ceiling, g, now)
    ensures Hold(a, e, ceiling, g, now) ==> Hold(s, e, ceiling, g, now)
  {
  }

  lemma CalmIsLow(x: Sample, g: Config)
    requires Usable(x)
    ensures (Calm(x, g) <==> x.Level(g) == Low) && (Uneasy(x, g) <==> x.Level(g) == Middle)
  {
  }

  /** In NORMAL or TRIM a calm sample starts the recovery timer, or, a recovery interval after it, raises PL1 by the
      recovery step, at most to the ceiling, and starts it again. */
  lemma CalmRecovers(s: GovState, x: Sample, readback: Readback, g: Config, now: real)
    requires WellGoverned(s, readback, g) && s.phase in {NORMAL, TRIM} && Calm(x, g)
    ensures Climb(s, Step(s, x, readback, g, now).s, EffectiveCeiling(s, x.pkgC, g, now), g, now)
  {
    var t, ceiling := GovernedStep(s, x, readback, g, now);
    CalmIsLow(x, g);
    LowOutcome(t, Low, ceiling, s.Top(g), g, now);
    SameClimb(t.s, s, Step(s, x, readback, g, now).s, ceiling, g, now);
  }

  /** A sample between the thresholds changes no limit but for the thermal ceiling, and stops the timer. */
  lemma UneasyHolds(s: GovState, x: Sample, readback: Readback, g: Config, now: real)
    requires WellGoverned(s, readback, g) && s.phase in {NORMAL, TRIM} && Uneasy(x, g)
    ensures Hold(s, Step(s, x, readback, g, now).s, EffectiveCeiling(s, x.pkgC, g, now), g, now)
  {
    var t, ceiling := GovernedStep(s, x, readback, g, now);
    CalmIsLow(x, g);
    LowOutcome(t, Middle, ceiling, s.Top(g), g, now);
    SameClimb(t.s, s, Step(s, x, readback, g, now).s, ceiling, g, now);
  }

  /** From NORMAL or TRIM, nothing but calm samples, a recovery interval apart, all written limits read back, and no
      effective ceiling below `c`. */
  ghost predicate Climbs(l: Loop, inputs: seq<Input>, c: real, g: Config) {
    && DynamicRun(inputs, g) && AllReadBack(l, inputs) && Spaced(inputs, g.recoverIntervalS)
    && DynamicState(l.gov, g) && l.gov.phase in {NORMAL, TRIM}
    && (forall i | 0 <= i < |inputs| ::
          && Calm(inputs[i].sample, g)
          && (l.gov.belowRecoverSince.Some? ==> l.gov.belowRecoverSince.value <= inputs[i].now))
    && (forall k: nat | k < |inputs| :: RoomAt(l, inputs, k, c, g))
  }

  /** The effective ceiling that tick `k` finds is not below `c`. */
  ghost predicate RoomAt(l: Loop, inputs: seq<Input>, k: nat, c: real, g: Config)
    requires k < |inputs|
  {
    c <= EffectiveCeiling(Run(l, inputs[..k]).gov, inputs[k].sample.pkgC, g, inputs[k].now)
  }

  lemma RoomAtFront(l: Loop, inputs: seq<Input>, k: nat, c: real, g: Config)
    requires k < |inputs| - 1 && RoomAt(l, inputs, k, c, g)
    ensures RoomAt(l, inputs[..|inputs| - 1], k, c, g)
  {
    assert inputs[..|inputs| - 1][..k] == inputs[..k];
  }

  /** After n calm samples PL1 has been raised n - 1 times, or has reached `c`. */
  ghost predicate ClimbedBy(l: Loop, e: GovState, inputs: seq<Input>, c: real, g: Config)
    requires l.gov.pl1.Some?
  {
    && DynamicState(e, g) && e.phase in {NORMAL, TRIM} && e.pl1.Some?
    && if inputs == [] then e == l.gov
       else
         && e.belowRecoverSince.Some? && e.belowRecoverSince.value <= inputs[|inputs| - 1].now
         && e.pl1.value >= Min(c, l.gov.pl1.value + Times(|inputs| - 1, g.recoverStepW))
  }

  lemma ClimbsFront(l: Loop, inputs: seq<Input>, c: real, g: Config)
    requires inputs != [] && Climbs(l, inputs, c, g)
    ensures Climbs(l, inputs[..|inputs| - 1], c, g)
    ensures Run(l, inputs[..|inputs| - 1]).readback != Mismatch && RoomAt(l, inputs, |inputs| - 1, c, g)
  {
    var front := inputs[..|inputs| - 1];
    FrontOf(l, inputs, g, g.recoverIntervalS);
    forall k: nat | k < |front|
      ensures RoomAt(l, front, k, c, g)
    {
      RoomAtFront(l, inputs, k, c, g);
    }
  }

  /** The arithmetic of one more raise. */
  lemma ClimbSum(s: GovState, b: GovState, e: GovState, c: real, ceiling: real, n: nat, g: Config, now: real)
    requires s.pl1.Some? && b.pl1.Some? && g.Sound() && Climb(b, e, ceiling, g, now) && c <= ceiling
    requires n > 0 ==> b.pl1.value >= Min(c, s.pl1.value + Times(n - 1, g.recoverStepW)) && RecoverDue(b, g, now)
    requires n == 0 ==> b == s
    ensures e.pl1.value >= Min(c, s.pl1.value + Times(n, g.recoverStepW))
    ensures e.belowRecoverSince.Some? && (b.belowRecoverSince.Some? && b.belowRecoverSince.value <= now ==>
              e.belowRecoverSince.value <= now)
  {
  }

  lemma TickClimbs(b: Loop, i: Input, g: Config)
    requires WellGoverned(b.gov, b.readback, g) && b.gov.phase in {NORMAL, TRIM} && i.config == g && Calm(i.sample, g)
    ensures Climb(b.gov, Tick(b, i).gov, EffectiveCeiling(b.gov, i.sample.pkgC, g, i.now), g, i.now)
    ensures DynamicState(Tick(b, i).gov, g)
  {
    TickGov(b, i);
    CalmRecovers(b.gov, i.sample, b.readback, g, i.now);
    StepMove(b.gov, i.sample, b.readback, g, i.now);
  }

  lemma ClimbOnce(l: Loop, inputs: seq<Input>, b: GovState, e: GovState, ceiling: real, c: real, g: Config)
    requires inputs != [] && Spaced(inputs, g.recoverIntervalS) && g.Sound()
    requires l.gov.belowRecoverSince.Some? ==> l.gov.belowRecoverSince.value <= inputs[|inputs| - 1].now
    requires l.gov.pl1.Some? && DynamicState(e, g) && b.pl1.Some?
    requires Climb(b, e, ceiling, g, inputs[|inputs| - 1].now) && c <= ceiling
    requires ClimbedBy(l, b, inputs[..|inputs| - 1], c, g)
    ensures ClimbedBy(l, e, inputs, c, g)
  {
    var n := |inputs| - 1;
    if n > 0 {
      assert inputs[n].now - inputs[n - 1].now >= g.recoverIntervalS;
      assert inputs[..n][n - 1] == inputs[n - 1];
    }
    ClimbSum(l.gov, b, e, c, ceiling, n, g, inputs[n].now);
  }

  /** n + 1 such samples raise PL1 by n recovery steps, or to `c`. */
  lemma {:induction false} RecoveryRun(l: Loop, inputs: seq<Input>, c: real, g: Config)
    requires Climbs(l, inputs, c, g) && l.gov.pl1.Some?
    ensures ClimbedBy(l, Run(l, inputs).gov, inputs, c, g)
    decreases |inputs|
  {
    if inputs != [] {
      ClimbsFront(l, inputs, c, g);
      RecoveryRun(l, inputs[..|inputs| - 1], c, g);
      var b, i := Run(l, inputs[..|inputs| - 1]), inputs[|inputs| - 1];
      TickClimbs(b, i, g);
      ClimbOnce(l, inputs, b.gov, Tick(b, i).gov, EffectiveCeiling(b.gov, i.sample.pkgC, g, i.now), c, g);
    }
  }

  /** Without a thermal rule the effective ceiling is the top. */
  lemma NoThermalCeiling(s: GovState, temp: Option<real>, g: Config, now: real)
    requires g.thermalTrimC.None?
    ensures EffectiveCeiling(s, temp, g, now) == s.Top(g)
  {
  }
}
