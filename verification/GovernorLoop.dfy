/** The powercap zone, and the daemon's control loop around the governor. */
module GovernorLoop {
  import opened Options
  import opened Governor

  // ----- The powercap zone

  /** `constraint_N_power_limit_uw` of the two constraints, and `enabled`. */
  datatype Zone = Zone(pl1Uw: int, pl2Uw: int, enabled: int)

  datatype MsrLimit = MsrLimit(pl1W: real, pl2W: real, pl1Enable: bool)

  /** How one `apply_and_verify` goes: which writes land, which errors are reported, what can be read back. */
  datatype Outcome = Outcome(
    available: bool, raised: bool, errors: bool,
    lands1: bool, lands2: bool, landsEnabled: bool,
    readable: bool, msr: Option<MsrLimit>)

  /** A usable firmware capture. */
  datatype Firmware = Firmware(pl1W: real, pl2W: real)

  /** Whole eighths of a watt, rounded down. */
  function FloorEighth(w: real): int { (w * 8.0 + 0.000000001).Floor }

  function EighthW(k: int): real { k as real / 8.0 }
  function EighthUw(k: int): int { k * 125_000 }

  /** Both limits in eighths of a watt. */
  function ClampLimits(pl1: real, pl2: real, fw: Option<Firmware>): (int, int) {
    var m1 := if fw.Some? then Min(HARD_MAX_W, fw.value.pl1W) else HARD_MAX_W;
    var m2 := if fw.Some? then Min(HARD_MAX_W, fw.value.pl2W) else HARD_MAX_W;
    (FloorEighth(Min(pl1, m1)), FloorEighth(Min(pl2, m2)))
  }

  function Abs(x: real): real { if x < 0.0 then -x else x }

  /** sysfs must match to the microwatt, the MSR within an eighth of a watt. */
  predicate CompareLimits(want1: int, want2: int, z: Zone, readable: bool, msr: Option<MsrLimit>) {
    && readable && z.pl1Uw == EighthUw(want1) && z.pl2Uw == EighthUw(want2) && z.enabled == 1
    && (msr.Some? ==>
          && Abs(msr.value.pl1W - EighthW(want1)) <= 0.125 && Abs(msr.value.pl2W - EighthW(want2)) <= 0.125
          && msr.value.pl1Enable)
  }

  function Land(z: Zone, want1: int, want2: int, o: Outcome): Zone {
    Zone(if o.lands1 then EighthUw(want1) else z.pl1Uw,
         if o.lands2 then EighthUw(want2) else z.pl2Uw,
         if o.landsEnabled then 1 else z.enabled)
  }

  /** The zone afterwards, and the verdict. */
  function ApplyAndVerify(z: Zone, pl1: real, pl2: real, fw: Option<Firmware>, o: Outcome): (Zone, bool) {
    var (want1, want2) := ClampLimits(pl1, pl2, fw);
    if !o.available then (z, false)
    else
      var landed := Land(z, want1, want2, o);
      (landed, !o.raised && !o.errors && CompareLimits(want1, want2, landed, o.readable, o.msr))
  }

  function Verdict(ok: bool): Readback { if ok then Verified else Mismatch }

  // ----- One tick

  datatype Loop = Loop(gov: GovState, readback: Readback, zone: Zone, fw: Option<Firmware>)

  /** What the outside world supplies to one tick. */
  datatype Input = Input(sample: Sample, config: Config, now: real, outcome: Outcome)

  function ApplyActions(l: Loop, actions: seq<Action>, o: Outcome): Loop
    decreases |actions|
  {
    if actions == [] then l
    else
      var next := match actions[0]
        case SetLimits(pl1, pl2) =>
          var (zone, ok) := ApplyAndVerify(l.zone, pl1, pl2, l.fw, o);
          l.(zone := zone, readback := Verdict(ok))
        case _ => l;
      ApplyActions(next, actions[1..], o)
  }

  function Tick(l: Loop, i: Input): Loop {
    var w := Step(l.gov, i.sample, l.readback, i.config, i.now);
    ApplyActions(l.(gov := w.s, readback := NoReadback), w.actions, i.outcome)
  }

  function Run(l: Loop, inputs: seq<Input>): Loop
    decreases |inputs|
  {
    if inputs == [] then l else Tick(Run(l, inputs[..|inputs| - 1]), inputs[|inputs| - 1])
  }

  // ----- Writes of a step

  function Writes(actions: seq<Action>): seq<(real, real)>
    decreases |actions|
  {
    if actions == [] then []
    else (if actions[0].SetLimits? then [(actions[0].pl1, actions[0].pl2)] else []) + Writes(actions[1..])
  }

  lemma WritesAppend(a: seq<Action>, x: Action)
    ensures Writes(a + [x]) == Writes(a) + (if x.SetLimits? then [(x.pl1, x.pl2)] else [])
  {
    if a == [] {
      assert a + [x] == [x] && [x][1..] == [];
    } else {
      WritesAppend(a[1..], x);
      assert (a + [x])[1..] == a[1..] + [x];
    }
  }

  /** Applying actions depends on the writes among them only. */
  function ApplyWrites(l: Loop, writes: seq<(real, real)>, o: Outcome): Loop
    decreases |writes|
  {
    if writes == [] then l
    else
      var (zone, ok) := ApplyAndVerify(l.zone, writes[0].0, writes[0].1, l.fw, o);
      ApplyWrites(l.(zone := zone, readback := Verdict(ok)), writes[1..], o)
  }

  lemma ApplyActionsIsApplyWrites(l: Loop, actions: seq<Action>, o: Outcome)
    ensures ApplyActions(l, actions, o) == ApplyWrites(l, Writes(actions), o)
    decreases |actions|
  {
    if actions != [] {
      var rest := Writes(actions[1..]);
      match actions[0] {
        case SetLimits(pl1, pl2) =>
          var (zone, ok) := ApplyAndVerify(l.zone, pl1, pl2, l.fw, o);
          ApplyActionsIsApplyWrites(l.(zone := zone, readback := Verdict(ok)), actions[1..], o);
          assert ([(pl1, pl2)] + rest)[1..] == rest;
        case _ =>
          ApplyActionsIsApplyWrites(l, actions[1..], o);
          assert [] + rest == rest;
      }
    }
  }

  // ----- One step issues at most one write, of the limits it records as commanded

  ghost predicate OneWrite(w: Work, s0: GovState) {
    if Writes(w.actions) == [] then w.s.pl1 == s0.pl1 && w.s.pl2 == s0.pl2
    else w.s.pl1.Some? && w.s.pl2.Some? && Writes(w.actions) == [(w.s.pl1.value, w.s.pl2.value)]
  }

  lemma EmitKeepsWrites(w: Work, a: Action)
    requires !a.SetLimits?
    ensures Writes(w.Emit(a).actions) == Writes(w.actions)
  {
    WritesAppend(w.actions, a);
  }

  lemma EnterKeepsWrites(w: Work, p: Phase)
    ensures Writes(w.Enter(p).actions) == Writes(w.actions) && w.Enter(p).s == w.s.(phase := p)
  {
    WritesAppend(w.actions, StateEvent(w.s.phase, p));
  }

  lemma WriteOnce(w: Work, w1: real, w2: real, force: bool, now: real)
    requires Writes(w.actions) == []
    ensures var v := w.Write(w1, w2, force, now);
      && OneWrite(v, w.s) && (force ==> Writes(v.actions) != [])
      && v.s == w.s.(pl1 := v.s.pl1, pl2 := v.s.pl2, lastWrite := v.s.lastWrite)
      && v.s.pl1 == Some(w.s.Cap1(w1)) && v.s.pl2 == Some(w.s.Cap2(w2))
  {
    WritesAppend(w.actions, SetLimits(w.s.Cap1(w1), w.s.Cap2(w2)));
  }

  lemma FallbackOnce(w: Work, cap: real, now: real)
    requires Writes(w.actions) == []
    ensures var v := w.Fallback(cap, now); var fb := w.s.Cap1(w.FallbackW(cap));
      && OneWrite(v, w.s) && v.s.phase == FALLBACK && v.s.pl1 == Some(fb)
      && v.s == w.s.(phase := FALLBACK, belowShedSince := None, belowRecoverSince := None,
                     pl1 := v.s.pl1, pl2 := v.s.pl2, lastWrite := v.s.lastWrite)
  {
    var e := if w.s.phase != FALLBACK then w.Emit(FallbackEvent) else w;
    EmitKeepsWrites(w, FallbackEvent);
    EnterKeepsWrites(e, FALLBACK);
    var c := e.Enter(FALLBACK).(s := e.Enter(FALLBACK).s.(belowShedSince := None, belowRecoverSince := None));
    var fb := c.FallbackW(cap);
    WriteOnce(c, fb, fb, true, now);
  }

  lemma ThermalSilent(w: Work, temp: Option<real>, floor: real, ceiling: real, g: Config, now: real)
    requires Writes(w.actions) == []
    ensures var t := Thermal(w, temp, floor, ceiling, g, now).0;
      && Writes(t.actions) == []
      && t.s == w.s.(thermalCap := t.s.thermalCap, lastThermal := t.s.lastThermal)
  {
    var (t, cap) := Thermal(w, temp, floor, ceiling, g, now);
    if t.actions != w.actions {
      var last := t.actions[|t.actions| - 1];
      assert t.actions == w.actions + [last];
      WritesAppend(w.actions, last);
    }
  }

  /** A ruling only touches timers, and emits no write. */
  ghost predicate RulingSilent(r: Ruling, w: Work) {
    && Writes(r.w.actions) == [] && Running(r.phase)
    && r.w.s == w.s.(belowShedSince := r.w.s.belowShedSince, belowRecoverSince := r.w.s.belowRecoverSince,
                     lastCut := r.w.s.lastCut)
  }

  lemma ShedRuleSilent(w: Work, pl1: real, hold: Phase, floor: real, g: Config, now: real)
    requires Writes(w.actions) == [] && Running(hold)
    ensures RulingSilent(ShedRule(w, pl1, hold, floor, g, now), w)
  {
    WritesAppend(w.actions, CutEvent(pl1, Max(floor, pl1 - g.cutStepW)));
  }

  lemma RecoverRuleSilent(w: Work, calm: bool, pl1: real, ceiling: real, top: real, g: Config, now: real)
    requires Writes(w.actions) == []
    ensures RulingSilent(RecoverRule(w, calm, pl1, ceiling, top, g, now), w)
  {
    WritesAppend(w.actions, RecoverEvent(pl1, Min(ceiling, pl1 + g.recoverStepW)));
  }

  lemma RulesSilent(
    w: Work, level: Level, pl1: real, hold: Phase, floor: real, ceiling: real, top: real, g: Config, now: real)
    requires Writes(w.actions) == [] && Running(hold)
    ensures RulingSilent(Rules(w, level, pl1, hold, floor, ceiling, top, g, now), w)
  {
    WritesAppend(w.actions, EmergencyEvent);
    ShedRuleSilent(w, pl1, hold, floor, g, now);
    var c := if w.s.belowShedSince.None? then w.(s := w.s.(belowShedSince := Some(now))) else w;
    RecoverRuleSilent(c, level == Low, pl1, ceiling, top, g, now);
  }

  lemma DynamicOnce(w: Work, level: Level, temp: Option<real>, g: Config, force: bool, now: real)
    requires Writes(w.actions) == []
    ensures var v := StepDynamic(w, level, temp, g, force, now);
      && OneWrite(v, w.s) && (force ==> Writes(v.actions) != []) && Running(v.s.phase)
  {
    var floor, top := g.Floor(), w.s.Top(g);
    var (t, ceiling) := Thermal(w, temp, floor, top, g, now);
    ThermalSilent(w, temp, floor, top, g, now);
    var pl1 := Min(Max(StartW(t, g), floor), ceiling);
    var hold := if !Resuming(t.s) then t.s.phase else if pl1 >= top then NORMAL else TRIM;
    RulesSilent(t, level, pl1, hold, floor, ceiling, top, g, now);
    FinishOnce(DynamicRuling(t, level, ceiling, top, g, now), g, force || Resuming(t.s), now);
  }

  lemma FinishOnce(r: Ruling, g: Config, force: bool, now: real)
    requires Writes(r.w.actions) == []
    ensures var v := FinishDynamic(r, g, force, now);
      OneWrite(v, r.w.s) && (force ==> Writes(v.actions) != []) && v.s.phase == r.phase
  {
    EnterKeepsWrites(r.w, r.phase);
    WriteOnce(r.w.Enter(r.phase), r.pl1, if r.phase in {NORMAL, TRIM} then r.pl1 + g.burstW else r.pl1, force, now);
  }

  /** A phase whose limits the daemon has verified or is about to verify. */
  predicate Governed(p: Phase) { p in {NORMAL, TRIM, EMERGENCY, STATIC} }

  /** One step writes at most once and records what it wrote; it governs only without a failed readback, and it never
      starts to govern without writing. */
  lemma StepWrites(s: GovState, x: Sample, readback: Readback, g: Config, now: real)
    ensures var w := Step(s, x, readback, g, now);
      && OneWrite(w, s)
      && (Governed(w.s.phase) ==> readback != Mismatch && (Governed(s.phase) || Writes(w.actions) != []))
  {
    var w := Work(if x.Valid() then s.(lastValid := Some(now)) else s, []);
    if g.mode == Off {
      var c := w.(s := w.s.(retryAt := None, thermalCap := None));
      WriteOnce(c, g.staticCapW, g.staticCapW, true, now);
      EnterKeepsWrites(if c.s.phase != OFF then c.Write(g.staticCapW, g.staticCapW, true, now) else c, OFF);
    } else if readback == Mismatch {
      var b := NextBackoff(w.s.backoffS);
      var c := w.(s := w.s.(backoffS := b, retryAt := Some(now + b)));
      FallbackOnce(c, g.staticCapW, now);
      EmitKeepsWrites(if c.s.phase != FALLBACK then c.Fallback(g.staticCapW, now) else c, RetryScheduled(b));
    } else {
      LiveWrites(if readback == Verified && s.phase != FALLBACK then w.(s := w.s.(backoffS := 0.0)) else w, x, g, now);
    }
  }

  lemma LiveWrites(a: Work, x: Sample, g: Config, now: real)
    requires Writes(a.actions) == []
    ensures var w := StepLive(a, x, g, now);
      OneWrite(w, a.s) && (Governed(w.s.phase) ==> Governed(a.s.phase) || Writes(w.actions) != [])
  {
    var waiting := a.s.phase == FALLBACK && a.s.retryAt.Some?;
    if waiting && now < a.s.retryAt.value {
      EmitKeepsWrites(a, EmergencyEvent);
      WriteOnce(a.Emit(EmergencyEvent), g.Floor(), g.Floor(), true, now);
    } else {
      var b := if waiting then a.(s := a.s.(retryAt := None)).Emit(Retry) else a;
      EmitKeepsWrites(a.(s := a.s.(retryAt := None)), Retry);
      AfterRetryWrites(b, x, g, a.s.phase in {OFF, FALLBACK}, waiting, now);
    }
  }

  lemma AfterRetryWrites(b: Work, x: Sample, g: Config, force: bool, retried: bool, now: real)
    requires Writes(b.actions) == [] && force == (b.s.phase in {OFF, FALLBACK})
    ensures var w := if g.mode == Static then StepStatic(b, g, force, now)
                     else if Stale(b.s, g, now) then StepStale(b, g, retried, now)
                     else StepDynamic(b, x.Level(g), x.pkgC, g, force, now);
      && OneWrite(w, b.s) && (Governed(w.s.phase) ==> Governed(b.s.phase) || Writes(w.actions) != [])
  {
    if g.mode == Static {
      var c := b.(s := b.s.(thermalCap := None));
      EnterKeepsWrites(c, STATIC);
      WriteOnce(c.Enter(STATIC), g.staticCapW, g.staticCapW, force || c.s.phase != STATIC, now);
    } else if Stale(b.s, g, now) {
      if b.s.phase != FALLBACK {
        FallbackOnce(b.(s := b.s.(retryAt := None)), g.staticCapW, now);
      } else {
        WriteOnce(b, b.FallbackW(g.staticCapW), b.FallbackW(g.staticCapW), retried, now);
      }
    } else {
      DynamicOnce(b, x.Level(g), x.pkgC, g, force, now);
    }
  }

  // ----- Command and hardware agree

  ghost predicate Agrees(l: Loop) {
    && l.gov.pl1.Some? && l.gov.pl2.Some?
    && var (k1, k2) := ClampLimits(l.gov.pl1.value, l.gov.pl2.value, l.fw);
       l.zone == Zone(EighthUw(k1), EighthUw(k2), 1)
  }

  /** `uw` microwatts are `k` whole eighths of a watt: the most that is not above the commanded watts, 45 W, or the
      firmware limit, if there is one; a billionth of an eighth is forgiven. */
  ghost predicate LargestEighth(uw: int, k: int, command: real, firmware: Option<real>) {
    && uw == k * 125_000 && NotAbove(k, command, firmware) && !NotAbove(k + 1, command, firmware)
  }

  ghost predicate NotAbove(k: int, command: real, firmware: Option<real>) {
    && k as real <= command * 8.0 + 0.000000001
    && k as real <= 45.0 * 8.0 + 0.000000001
    && (firmware.Some? ==> k as real <= firmware.value * 8.0 + 0.000000001)
  }

  ghost predicate HoldsLimit(uw: int, command: real, firmware: Option<real>) {
    exists k :: LargestEighth(uw, k, command, firmware)
  }

  /** Each register holds its own limit. */
  ghost predicate HoldsLimits(z: Zone, pl1: real, pl2: real, fw: Option<Firmware>) {
    && HoldsLimit(z.pl1Uw, pl1, if fw.Some? then Some(fw.value.pl1W) else None)
    && HoldsLimit(z.pl2Uw, pl2, if fw.Some? then Some(fw.value.pl2W) else None)
  }

  lemma FloorMeans(w: real, command: real, firmware: Option<real>)
    requires w == Min(command, if firmware.Some? then Min(HARD_MAX_W, firmware.value) else HARD_MAX_W)
    ensures HoldsLimit(EighthUw(FloorEighth(w)), command, firmware)
  {
    assert LargestEighth(EighthUw(FloorEighth(w)), FloorEighth(w), command, firmware);
  }

  /** The clamped limits are the right ones for each register. */
  lemma ClampMeans(pl1: real, pl2: real, fw: Option<Firmware>, enabled: int)
    ensures var (k1, k2) := ClampLimits(pl1, pl2, fw);
      HoldsLimits(Zone(EighthUw(k1), EighthUw(k2), enabled), pl1, pl2, fw)
  {
    var (k1, k2) := ClampLimits(pl1, pl2, fw);
    FloorMeans(Min(pl1, if fw.Some? then Min(HARD_MAX_W, fw.value.pl1W) else HARD_MAX_W), pl1,
               if fw.Some? then Some(fw.value.pl1W) else None);
    FloorMeans(Min(pl2, if fw.Some? then Min(HARD_MAX_W, fw.value.pl2W) else HARD_MAX_W), pl2,
               if fw.Some? then Some(fw.value.pl2W) else None);
  }

  /** The MSR, where it can be read, is within an eighth of a watt of the zone and enabled. */
  ghost predicate MsrFits(msr: Option<MsrLimit>, z: Zone) {
    msr.Some? ==>
      && -0.125 <= msr.value.pl1W - z.pl1Uw as real / 1_000_000.0 <= 0.125
      && -0.125 <= msr.value.pl2W - z.pl2Uw as real / 1_000_000.0 <= 0.125
      && msr.value.pl1Enable
  }

  /** Only the largest whole eighth holds the limit. */
  lemma HeldOnce(a: int, b: int, command: real, firmware: Option<real>)
    requires HoldsLimit(a, command, firmware) && HoldsLimit(b, command, firmware)
    ensures a == b
  {
    var j :| LargestEighth(a, j, command, firmware);
    var k :| LargestEighth(b, k, command, firmware);
    assert j >= k && k >= j;
  }

  lemma EighthScale(k: int)
    ensures EighthUw(k) as real / 1_000_000.0 == EighthW(k)
  {
  }

  /** A write is reported as good exactly when nothing failed, the zone can be read and is enabled, each of its limits
      is the right one, and the MSR fits; a write that lands puts the right limit into its register, another leaves
      it. */
  lemma VerdictExactly(z: Zone, pl1: real, pl2: real, fw: Option<Firmware>, o: Outcome)
    ensures var (e, ok) := ApplyAndVerify(z, pl1, pl2, fw, o);
      && (ok <==> o.available && !o.raised && !o.errors && o.readable && e.enabled == 1
                  && HoldsLimits(e, pl1, pl2, fw) && MsrFits(o.msr, e))
      && (o.available && o.lands1 ==> HoldsLimit(e.pl1Uw, pl1, if fw.Some? then Some(fw.value.pl1W) else None))
      && (o.available && o.lands2 ==> HoldsLimit(e.pl2Uw, pl2, if fw.Some? then Some(fw.value.pl2W) else None))
      && (o.available && o.landsEnabled ==> e.enabled == 1)
      && (!o.available || !o.lands1 ==> e.pl1Uw == z.pl1Uw) && (!o.available || !o.lands2 ==> e.pl2Uw == z.pl2Uw)
      && (!o.available || !o.landsEnabled ==> e.enabled == z.enabled)
  {
    var (k1, k2) := ClampLimits(pl1, pl2, fw);
    var (e, ok) := ApplyAndVerify(z, pl1, pl2, fw, o);
    ClampMeans(pl1, pl2, fw, 1);
    EighthScale(k1);
    EighthScale(k2);
    if HoldsLimits(e, pl1, pl2, fw) {
      HeldOnce(e.pl1Uw, EighthUw(k1), pl1, if fw.Some? then Some(fw.value.pl1W) else None);
      HeldOnce(e.pl2Uw, EighthUw(k2), pl2, if fw.Some? then Some(fw.value.pl2W) else None);
    }
  }

  /** The zone is enabled and holds the commanded limits. */
  ghost predicate InEffect(l: Loop) {
    l.gov.pl1.Some? && l.gov.pl2.Some? && l.zone.enabled == 1
    && HoldsLimits(l.zone, l.gov.pl1.value, l.gov.pl2.value, l.fw)
  }

  lemma AgreementInEffect(l: Loop)
    ensures Agrees(l) ==> InEffect(l)
  {
    if Agrees(l) {
      ClampMeans(l.gov.pl1.value, l.gov.pl2.value, l.fw, 1);
    }
  }

  /** A good verdict means agreement, and so does a governed phase once its verdict has been consumed. */
  ghost predicate Consistent(l: Loop) {
    && (l.readback == Verified ==> Agrees(l))
    && (l.readback == NoReadback && Governed(l.gov.phase) ==> Agrees(l))
  }

  lemma TickKeepsConsistent(l: Loop, i: Input)
    requires Consistent(l)
    ensures Consistent(Tick(l, i)) && Tick(l, i).fw == l.fw
    ensures Tick(l, i).readback != NoReadback <==>
              Writes(Step(l.gov, i.sample, l.readback, i.config, i.now).actions) != []
  {
    var w := Step(l.gov, i.sample, l.readback, i.config, i.now);
    var mid := l.(gov := w.s, readback := NoReadback);
    StepWrites(l.gov, i.sample, l.readback, i.config, i.now);
    ApplyActionsIsApplyWrites(mid, w.actions, i.outcome);
    if Writes(w.actions) != [] {
      assert Writes(w.actions)[1..] == [];
    } else {
      assert Tick(l, i) == mid;
    }
  }

  /** Over every run, whatever the samples, the configuration changes and the hardware do: where no verdict is pending
      and the governor is in a governed phase, the zone is enabled, and each of its registers holds the largest whole
      eighth of a watt not above the commanded limit, 45 W and the firmware limit of that register. */
  lemma {:induction false} RunConsistent(l: Loop, inputs: seq<Input>)
    requires Consistent(l)
    ensures var e := Run(l, inputs);
      Consistent(e) && (e.readback == Verified || (e.readback == NoReadback && Governed(e.gov.phase)) ==> InEffect(e))
  {
    AgreementInEffect(Run(l, inputs));
    if inputs != [] {
      RunConsistent(l, inputs[..|inputs| - 1]);
      TickKeepsConsistent(Run(l, inputs[..|inputs| - 1]), inputs[|inputs| - 1]);
    }
  }

  /** Where every write lands and can be read, the readback never fails. */
  lemma FullWriteVerifies(l: Loop, i: Input)
    requires i.outcome == Outcome(true, false, false, true, true, true, true, None)
    ensures Tick(l, i).readback != Mismatch
  {
    var w := Step(l.gov, i.sample, l.readback, i.config, i.now);
    var mid := l.(gov := w.s, readback := NoReadback);
    StepWrites(l.gov, i.sample, l.readback, i.config, i.now);
    ApplyActionsIsApplyWrites(mid, w.actions, i.outcome);
    if Writes(w.actions) != [] {
      assert Writes(w.actions)[1..] == [];
    }
  }

  /** A failed verdict puts the next governed tick in FALLBACK, with a retry at most eight seconds away. */
  lemma FailedReadbackFallsBack(l: Loop, i: Input)
    requires l.readback == Mismatch && i.config.mode != Off
    ensures var e := Tick(l, i).gov;
      && e.phase == FALLBACK && e.retryAt.Some? && i.now < e.retryAt.value <= i.now + BACKOFF_MAX_S
      && (l.gov.phase != FALLBACK && l.gov.pl1.Some? ==> e.pl1.Some? && e.pl1.value <= l.gov.pl1.value)
  {
    var s := l.gov;
    var w := Work(if i.sample.Valid() then s.(lastValid := Some(i.now)) else s, []);
    var b := NextBackoff(w.s.backoffS);
    var c := w.(s := w.s.(backoffS := b, retryAt := Some(i.now + b)));
    FallbackOnce(c, i.config.staticCapW, i.now);
    ApplyKeepsGov(l.(gov := Step(s, i.sample, l.readback, i.config, i.now).s, readback := NoReadback),
                  Step(s, i.sample, l.readback, i.config, i.now).actions, i.outcome);
  }

  lemma ApplyKeepsGov(l: Loop, actions: seq<Action>, o: Outcome)
    ensures ApplyActions(l, actions, o).gov == l.gov
    decreases |actions|
  {
  }
}
