/** The governor step and the daemon in the form the code has: a working copy changed field by field, and a loop that
    applies the resulting actions. Both are proved to compute the functions the theorems are about. */
module GovernorDaemon {
  import opened Options
  import opened Governor
  import opened GovernorLoop

  /** The mutable working copy of one step. */
  class StepWork {
    var s: GovState
    var actions: seq<Action>
    const g: Config
    const now: real

    constructor (state: GovState, g: Config, now: real)
      ensures Value() == Work(state, []) && this.g == g && this.now == now
    {
      s, actions, this.g, this.now := state, [], g, now;
    }

    function Value(): Work
      reads this
    {
      Work(s, actions)
    }

    method Emit(a: Action)
      modifies this
      ensures Value() == old(Value()).Emit(a)
    {
      actions := actions + [a];
    }

    method Enter(p: Phase)
      modifies this
      ensures Value() == old(Value()).Enter(p)
    {
      if p != s.phase {
        Emit(StateEvent(s.phase, p));
        s := s.(phase := p);
      }
    }

    method Write(w1: real, w2: real, force: bool)
      modifies this
      ensures Value() == old(Value()).Write(w1, w2, force, now)
    {
      var pl1 := s.Cap1(w1);
      var pl2 := s.Cap2(w2);
      var due := Elapsed(s.lastWrite, now, REASSERT_S);
      if !force && !due && s.pl1 == Some(pl1) && s.pl2 == Some(pl2) {
        return;
      }
      Emit(SetLimits(pl1, pl2));
      s := s.(pl1 := Some(pl1), pl2 := Some(pl2), lastWrite := Some(now));
    }

    method ThermalCeiling(temp: Option<real>, floor: real, ceiling: real) returns (cap: real)
      modifies this
      ensures (Value(), cap) == Thermal(old(Value()), temp, floor, ceiling, g, now)
    {
      cap := ceiling;
      if s.thermalCap.Some? && g.thermalTrimC.Some? {
        cap := Min(Max(s.thermalCap.value, floor), ceiling);
      }
      if g.thermalTrimC.Some? && temp.Some? && Elapsed(s.lastThermal, now, g.thermalIntervalS) {
        var held := cap;
        if temp.value >= g.thermalTrimC.value {
          var start := if s.pl1.Some? then Min(cap, s.pl1.value) else cap;
          if start > floor {
            cap := Max(floor, start - g.thermalStepW);
            s := s.(lastThermal := Some(now));
            Emit(ThermalTrim(held, cap));
          }
        } else if temp.value < g.thermalRecoverC && cap < ceiling {
          cap := Min(ceiling, cap + g.thermalStepW);
          s := s.(lastThermal := Some(now));
          Emit(ThermalRecover(held, cap));
        }
      }
      s := s.(thermalCap := if cap < ceiling then Some(cap) else None);
    }

    method FallBack(cap: real)
      modifies this
      ensures Value() == old(Value()).Fallback(cap, now)
    {
      if s.phase != FALLBACK {
        Emit(FallbackEvent);
      }
      Enter(FALLBACK);
      s := s.(belowShedSince := None, belowRecoverSince := None);
      var fb := Value().FallbackW(cap);
      Write(fb, fb, true);
    }

    /** Rules 2 to 5. */
    method Decide(level: Level, start: real, hold: Phase, floor: real, ceiling: real, top: real)
      returns (phase: Phase, pl1: real)
      modifies this
      ensures Ruling(Value(), phase, pl1) == Rules(old(Value()), level, start, hold, floor, ceiling, top, g, now)
    {
      phase, pl1 := hold, start;
      if level == Unknown {
        return;
      }
      if level == Emergency {
        if s.phase != EMERGENCY {
          Emit(EmergencyEvent);
        }
        phase, pl1 := EMERGENCY, floor;
        s := s.(belowShedSince := None, belowRecoverSince := None);
      } else if level == High {
        s := s.(belowShedSince := None, belowRecoverSince := None);
        if s.phase != EMERGENCY {
          phase := TRIM;
          if Elapsed(s.lastCut, now, CUT_MIN_INTERVAL_S) && pl1 > floor {
            pl1 := Max(floor, pl1 - g.cutStepW);
            s := s.(lastCut := Some(now));
            Emit(CutEvent(start, pl1));
          }
        }
      } else {
        phase, pl1 := DecideBelowShed(level == Low, start, hold, ceiling, top);
      }
    }

    method DecideBelowShed(calm: bool, start: real, hold: Phase, ceiling: real, top: real)
      returns (phase: Phase, pl1: real)
      modifies this
      ensures Ruling(Value(), phase, pl1)
              == Rules(old(Value()), if calm then Low else Middle, start, hold, 0.0, ceiling, top, g, now)
    {
      phase, pl1 := hold, start;
      if s.belowShedSince.None? {
        s := s.(belowShedSince := Some(now));
      }
      if s.phase == EMERGENCY {
        if now - s.belowShedSince.value >= EMERGENCY_HOLD_S {
          phase := TRIM;
          s := s.(belowRecoverSince := None);
        }
        return;
      }
      if calm {
        if s.belowRecoverSince.None? {
          s := s.(belowRecoverSince := Some(now));
        } else if now - s.belowRecoverSince.value >= g.recoverIntervalS && pl1 < ceiling {
          pl1 := Min(ceiling, pl1 + g.recoverStepW);
          s := s.(belowRecoverSince := Some(now));
          Emit(RecoverEvent(start, pl1));
        }
      } else {
        s := s.(belowRecoverSince := None);
      }
      phase := if pl1 >= top then NORMAL else TRIM;
    }

    method Choose(level: Level, ceiling: real, top: real) returns (phase: Phase, pl1: real)
      modifies this
      ensures Ruling(Value(), phase, pl1) == DynamicRuling(old(Value()), level, ceiling, top, g, now)
    {
      var floor := g.Floor();
      var resume := !Running(s.phase) || s.pl1.None?;
      pl1 := g.staticCapW;
      if !resume {
        pl1 := s.pl1.value;
      } else if s.phase == FALLBACK {
        pl1 := Value().FallbackW(g.staticCapW);
      }
      pl1 := Min(Max(pl1, floor), ceiling);
      phase := if !resume then s.phase else if pl1 >= top then NORMAL else TRIM;
      phase, pl1 := Decide(level, pl1, phase, floor, ceiling, top);
    }

    method Govern(level: Level, temp: Option<real>, force: bool)
      modifies this
      ensures Value() == StepDynamic(old(Value()), level, temp, g, force, now)
    {
      var top := s.Top(g);
      var ceiling := ThermalCeiling(temp, g.Floor(), top);
      var resume := Resuming(s);
      var phase, pl1 := Choose(level, ceiling, top);
      Enter(phase);
      Write(pl1, if phase in {NORMAL, TRIM} then pl1 + g.burstW else pl1, force || resume);
    }
  }

  /** `step`, with its early returns. */
  method ComputeStep(state: GovState, x: Sample, readback: Readback, g: Config, now: real)
    returns (s: GovState, actions: seq<Action>)
    ensures Work(s, actions) == Step(state, x, readback, g, now)
  {
    var w := new StepWork(state, g, now);
    if x.Valid() {
      w.s := w.s.(lastValid := Some(now));
    }
    if g.mode == Off {
      w.s := w.s.(retryAt := None, thermalCap := None);
      if w.s.phase != OFF {
        w.Write(g.staticCapW, g.staticCapW, true);
      }
      w.Enter(OFF);
      return w.s, w.actions;
    }
    if readback == Mismatch {
      var b := NextBackoff(w.s.backoffS);
      w.s := w.s.(backoffS := b, retryAt := Some(now + b));
      if w.s.phase != FALLBACK {
        w.FallBack(g.staticCapW);
      }
      w.Emit(RetryScheduled(b));
      return w.s, w.actions;
    }
    if readback == Verified && w.s.phase != FALLBACK {
      w.s := w.s.(backoffS := 0.0);
    }
    ContinueStep(w, x);
    return w.s, w.actions;
  }

  method ContinueStep(w: StepWork, x: Sample)
    modifies w
    ensures w.Value() == StepLive(old(w.Value()), x, w.g, w.now)
  {
    var g, now := w.g, w.now;
    var force := w.s.phase in {OFF, FALLBACK};
    var retried := false;
    if w.s.phase == FALLBACK && w.s.retryAt.Some? {
      if now < w.s.retryAt.value {
        var floor := g.Floor();
        if g.mode == Dynamic && x.AtEmergency(g) && (w.s.pl1.None? || w.s.pl1.value > floor) {
          w.Emit(EmergencyEvent);
          w.Write(floor, floor, true);
        }
        return;
      }
      w.s := w.s.(retryAt := None);
      retried := true;
      w.Emit(Retry);
    }
    if g.mode == Static {
      w.s := w.s.(thermalCap := None);
      force := force || w.s.phase != STATIC;
      w.Enter(STATIC);
      w.Write(g.staticCapW, g.staticCapW, force);
    } else if Stale(w.s, g, now) {
      if w.s.phase != FALLBACK {
        w.s := w.s.(retryAt := None);
        w.FallBack(g.staticCapW);
      } else {
        var fb := w.Value().FallbackW(g.staticCapW);
        w.Write(fb, fb, retried);
      }
    } else {
      w.Govern(x.Level(g), x.pkgC, force);
    }
  }

  /** The part of the daemon that owns the governor state, the pending verdict and the zone. */
  class Daemon {
    const fw: Option<Firmware>
    var gov: GovState
    var readback: Readback
    var zone: Zone

    function State(): Loop
      reads this
    {
      Loop(gov, readback, zone, fw)
    }

    constructor (now: real, fw: Option<Firmware>, zone: Zone)
      ensures this.fw == fw && State().readback == NoReadback && Consistent(State())
      ensures gov == Initial(now, if fw.Some? then Some(fw.value.pl1W) else None,
                             if fw.Some? then Some(fw.value.pl2W) else None)
    {
      this.fw, this.zone, readback := fw, zone, NoReadback;
      gov := Initial(now, if fw.Some? then Some(fw.value.pl1W) else None,
                     if fw.Some? then Some(fw.value.pl2W) else None);
    }

    /** One action: write, read back, and leave the verdict for the next tick. */
    method Apply(a: Action, o: Outcome)
      modifies this`readback, this`zone
      ensures State() == ApplyActions(old(State()), [a], o)
    {
      if a.SetLimits? {
        var ok := false;
        var (want1, want2) := ClampLimits(a.pl1, a.pl2, fw);
        if o.available {
          zone := Land(zone, want1, want2, o);
          ok := !o.raised && !o.errors && CompareLimits(want1, want2, zone, o.readable, o.msr);
        }
        readback := Verdict(ok);
      }
      assert [a][1..] == [];
    }

    /** One control-loop tick. Consistency with the hardware is kept, whatever the hardware does. */
    method DoTick(i: Input)
      modifies this
      ensures State() == Tick(old(State()), i)
      ensures old(Consistent(State())) ==> Consistent(State())
    {
      ghost var before := State();
      var verdict := readback;
      readback := NoReadback;
      var s, actions := ComputeStep(gov, i.sample, verdict, i.config, i.now);
      gov := s;
      ghost var start := State();
      for k := 0 to |actions|
        invariant gov == s
        invariant ApplyActions(start, actions, i.outcome) == ApplyActions(State(), actions[k..], i.outcome)
      {
        ghost var here := State();
        Apply(actions[k], i.outcome);
        ApplyFirst(here, actions[k..], i.outcome);
        assert actions[k..][1..] == actions[k + 1..];
      }
      if Consistent(before) {
        TickKeepsConsistent(before, i);
      }
    }
  }

  lemma ApplyFirst(l: Loop, actions: seq<Action>, o: Outcome)
    requires actions != []
    ensures ApplyActions(l, actions, o) == ApplyActions(ApplyActions(l, [actions[0]], o), actions[1..], o)
  {
    assert [actions[0]][1..] == [];
  }
}
