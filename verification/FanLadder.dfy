/** The fan floor decision: a power rule and a three-step temperature ladder, both with a timed release. */
module FanLadder {
  import opened Options

  const POWER_HYST_W := 5.0

  /** The `fan` section of the configuration. */
  datatype Settings = Settings(
    powerW: real, powerRpm: int, c: seq<real>, rpm: seq<int>, hysteresis: real, interval: real, maxRpm: int)
  {
    /** What the bounds and the cross rules guarantee. */
    ghost predicate Valid() {
      && |c| == 3 && |rpm| == 3 && c[0] < c[1] < c[2] && 2000 <= rpm[0] <= rpm[1] <= rpm[2]
      && powerRpm >= 2000 && maxRpm >= 2500 && hysteresis > 0.0 && interval > 0.0
    }

    /** The temperature below which step `level` may be released. */
    function Release(level: nat): real
      requires |c| == 3 && 1 <= level <= 3
    {
      c[level - 1] - hysteresis
    }
  }

  datatype State = State(powerOn: bool, powerSince: Option<real>, level: nat, tempSince: Option<real>)

  const INITIAL := State(false, None, 0, None)

  datatype Input = Input(now: real, temp: Option<real>, power: Option<real>)

  /** The highest step whose threshold is met. */
  function Met(cfg: Settings, temp: real): nat
    requires |cfg.c| == 3
  {
    if temp >= cfg.c[2] then 3 else if temp >= cfg.c[1] then 2 else if temp >= cfg.c[0] then 1 else 0
  }

  function PowerRule(s: State, cfg: Settings, x: Input): (bool, Option<real>) {
    if x.power.None? then (false, None)
    else if x.power.value >= cfg.powerW then (true, None)
    else if s.powerOn && x.power.value < cfg.powerW - POWER_HYST_W then
      var since := if s.powerSince.None? then x.now else s.powerSince.value;
      if x.now - since >= cfg.interval then (false, None) else (true, Some(since))
    else (s.powerOn, None)
  }

  function Ladder(s: State, cfg: Settings, x: Input): (nat, Option<real>)
    requires |cfg.c| == 3 && s.level <= 3
  {
    if x.temp.None? then (0, None)
    else
      var met := Met(cfg, x.temp.value);
      if met >= s.level then (met, None)
      else if x.temp.value < cfg.Release(s.level) then
        var since := if s.tempSince.None? then x.now else s.tempSince.value;
        if x.now - since >= cfg.interval then
          (s.level - 1, if s.level > 1 then Some(x.now) else None)
        else (s.level, Some(since))
      else (s.level, None)
  }

  function Max(a: int, b: int): int { if a >= b then a else b }

  function Min(a: int, b: int): int { if a <= b then a else b }

  function StepRpm(cfg: Settings, level: nat): int
    requires |cfg.rpm| == 3 && level <= 3
  {
    if level == 0 then 0 else cfg.rpm[level - 1]
  }

  /** `decide`: the next state and the floor to ask for, 0 for the hardware minimum. */
  function Decide(s: State, cfg: Settings, x: Input): (r: (State, int))
    requires cfg.Valid() && s.level <= 3
    ensures r.0.level <= 3
  {
    var (on, powerSince) := PowerRule(s, cfg, x);
    var (level, tempSince) := Ladder(s, cfg, x);
    var wanted := Max(StepRpm(cfg, level), if on then cfg.powerRpm else 0);
    (State(on, powerSince, level, tempSince), Min(wanted, cfg.maxRpm))
  }

  // ----- One decision

  /** What the present inputs alone ask for. */
  function Demand(cfg: Settings, x: Input): int
    requires cfg.Valid()
  {
    Max(if x.temp.Some? then StepRpm(cfg, Met(cfg, x.temp.value)) else 0,
        if x.power.Some? && x.power.value >= cfg.powerW then cfg.powerRpm else 0)
  }

  /** Whatever the history, the floor covers the present demand, within the cap. A missing input asks for nothing and
      clears its own rule. */
  lemma TargetCoversDemand(s: State, cfg: Settings, x: Input)
    requires cfg.Valid() && s.level <= 3
    ensures Min(cfg.maxRpm, Demand(cfg, x)) <= Decide(s, cfg, x).1 <= cfg.maxRpm
    ensures x.temp.None? && x.power.None? ==> Decide(s, cfg, x) == (INITIAL, 0)
    ensures Decide(INITIAL, cfg, x).1 == Min(cfg.maxRpm, Demand(cfg, x))
  {
    if x.temp.Some? {
      StepsRise(cfg, Met(cfg, x.temp.value), Decide(s, cfg, x).0.level);
    }
  }

  lemma StepsRise(cfg: Settings, low: nat, high: nat)
    requires cfg.Valid() && low <= high <= 3
    ensures StepRpm(cfg, low) <= StepRpm(cfg, high)
  {
  }

  // ----- Runs

  ghost predicate Ordered(xs: seq<Input>) {
    forall i, j | 0 <= i < j < |xs| :: xs[i].now <= xs[j].now
  }

  /** The state after a run of inputs from the first state. */
  ghost function After(cfg: Settings, s: State, xs: seq<Input>): (r: State)
    requires cfg.Valid() && s.level <= 3
    ensures r.level <= 3
  {
    if xs == [] then s else Decide(After(cfg, s, xs[..|xs| - 1]), cfg, xs[|xs| - 1]).0
  }

  function Times(n: nat, t: real): real
    requires n <= 3
  {
    match n case 0 => 0.0 case 1 => t case 2 => t + t case 3 => t + t + t
  }

  /** The time the ladder still needs, at least, to come down to nothing. */
  function Remaining(cfg: Settings, s: State, now: real): real
    requires s.level <= 3
  {
    Times(s.level, cfg.interval) - if s.tempSince.Some? then now - s.tempSince.value else 0.0
  }

  /** One decision takes at most the elapsed time off the remaining time, and at most one step off the ladder. */
  lemma LadderStep(cfg: Settings, s: State, x: Input, before: real)
    requires cfg.Valid() && s.level <= 3 && x.temp.Some? && before <= x.now
    requires s.tempSince.Some? ==> s.tempSince.value <= before
    ensures var s' := Decide(s, cfg, x).0;
            && Remaining(cfg, s', x.now) >= Remaining(cfg, s, before) - (x.now - before)
            && (s'.tempSince.Some? ==> s'.tempSince.value <= x.now)
            && s'.level >= s.level - 1
            && (s'.level < s.level ==>
                x.temp.value < cfg.Release(s.level) && s.tempSince.Some? && x.now - s.tempSince.value >= cfg.interval)
  {
  }

  /** While the temperature is read, no run brings the ladder down faster than one step per interval. */
  lemma {:induction false} LadderRun(cfg: Settings, s: State, xs: seq<Input>, before: real)
    requires cfg.Valid() && s.level <= 3 && Ordered(xs)
    requires forall i | 0 <= i < |xs| :: xs[i].temp.Some? && before <= xs[i].now
    requires s.tempSince.Some? ==> s.tempSince.value <= before
    ensures var now := if xs == [] then before else xs[|xs| - 1].now;
            && Remaining(cfg, After(cfg, s, xs), now) >= Remaining(cfg, s, before) - (now - before)
            && (After(cfg, s, xs).tempSince.Some? ==> After(cfg, s, xs).tempSince.value <= now)
  {
    if xs != [] {
      var front := xs[..|xs| - 1];
      LadderRun(cfg, s, front, before);
      LadderStep(cfg, After(cfg, s, front), xs[|xs| - 1], if front == [] then before else front[|front| - 1].now);
    }
  }

  /** From the top step, with no release under way, to the hardware minimum takes three intervals. */
  lemma ThreeIntervals(cfg: Settings, s: State, xs: seq<Input>, before: real)
    requires cfg.Valid() && s.level == 3 && s.tempSince.None? && Ordered(xs) && xs != []
    requires forall i | 0 <= i < |xs| :: xs[i].temp.Some? && before <= xs[i].now
    requires After(cfg, s, xs).level == 0
    ensures xs[|xs| - 1].now - before >= cfg.interval + cfg.interval + cfg.interval
  {
    LadderRun(cfg, s, xs, before);
    NoTimerAtZero(cfg, s, xs);
  }

  /** The ladder's timer runs only while a step is engaged. */
  lemma {:induction false} NoTimerAtZero(cfg: Settings, s: State, xs: seq<Input>)
    requires cfg.Valid() && s.level <= 3
    requires s.level == 0 ==> s.tempSince.None?
    ensures After(cfg, s, xs).level == 0 ==> After(cfg, s, xs).tempSince.None?
  {
    if xs != [] {
      NoTimerAtZero(cfg, s, xs[..|xs| - 1]);
    }
  }

  // ----- What a running timer means

  /** Input `x` is present and below the release threshold of step `level`. */
  ghost predicate Below(cfg: Settings, level: nat, x: Input)
    requires |cfg.c| == 3 && 1 <= level <= 3
  {
    x.temp.Some? && x.temp.value < cfg.Release(level)
  }

  /** The release timer of the ladder was started by input `a`: the same step has been engaged since, and every later
      input was below its release threshold. Input `a` itself was below it too, unless it dropped the step above. */
  ghost predicate Dwell(cfg: Settings, s: State, xs: seq<Input>, a: nat)
    requires cfg.Valid() && s.level <= 3
  {
    var r := After(cfg, s, xs);
    && a < |xs| && 1 <= r.level && r.tempSince == Some(xs[a].now)
    && (forall i | a < i < |xs| :: Below(cfg, r.level, xs[i]))
    && (forall i | a < i <= |xs| :: After(cfg, s, xs[..i]).level == r.level)
    && (Below(cfg, r.level, xs[a]) || Dropped(cfg, s, xs, a, r.level))
  }

  /** Input `a` took the ladder from the step above down to `level`. */
  ghost predicate Dropped(cfg: Settings, s: State, xs: seq<Input>, a: nat, level: nat)
    requires cfg.Valid() && s.level <= 3 && a < |xs| && level <= 3
  {
    level < 3 && After(cfg, s, xs[..a]).level == level + 1 && Below(cfg, level + 1, xs[a])
  }

  lemma DwellGrows(cfg: Settings, s: State, xs: seq<Input>, a: nat)
    requires cfg.Valid() && s.level <= 3 && xs != []
    requires Dwell(cfg, s, xs[..|xs| - 1], a)
    requires After(cfg, s, xs).tempSince == Some(xs[a].now)
    requires After(cfg, s, xs).level == After(cfg, s, xs[..|xs| - 1]).level
    requires Below(cfg, After(cfg, s, xs).level, xs[|xs| - 1])
    ensures Dwell(cfg, s, xs, a)
  {
    var front := xs[..|xs| - 1];
    assert forall i | 0 <= i <= |front| :: front[..i] == xs[..i];
    assert xs[..|xs|] == xs;
  }

  lemma DwellStarts(cfg: Settings, s: State, xs: seq<Input>)
    requires cfg.Valid() && s.level <= 3 && xs != []
    requires 1 <= After(cfg, s, xs).level && After(cfg, s, xs).tempSince == Some(xs[|xs| - 1].now)
    requires Below(cfg, After(cfg, s, xs).level, xs[|xs| - 1]) || Dropped(cfg, s, xs, |xs| - 1, After(cfg, s, xs).level)
    ensures Dwell(cfg, s, xs, |xs| - 1)
  {
    assert xs[..|xs|] == xs;
  }

  /** Every running timer of a run that starts without one has such a start. */
  lemma {:induction false} DwellHasStart(cfg: Settings, s: State, xs: seq<Input>)
    requires cfg.Valid() && s.level <= 3 && s.tempSince.None?
    requires After(cfg, s, xs).tempSince.Some?
    ensures exists a: nat :: Dwell(cfg, s, xs, a)
  {
    assert xs != [];
    var front, x := xs[..|xs| - 1], xs[|xs| - 1];
    var f, r := After(cfg, s, front), After(cfg, s, xs);
    if f.tempSince.Some? && r.level == f.level {
      DwellHasStart(cfg, s, front);
      var a: nat :| Dwell(cfg, s, front, a);
      assert front[a] == xs[a];
      DwellGrows(cfg, s, xs, a);
    } else {
      DwellStarts(cfg, s, xs);
    }
  }

  /** A release: the last input of the run took the ladder one step down. */
  ghost predicate Releases(cfg: Settings, s: State, xs: seq<Input>)
    requires cfg.Valid() && s.level <= 3
  {
    xs != [] && xs[|xs| - 1].temp.Some? && After(cfg, s, xs).level < After(cfg, s, xs[..|xs| - 1]).level
  }

  /** Every input from `a` on was below the release threshold of `level`. */
  ghost predicate BelowFrom(cfg: Settings, level: nat, xs: seq<Input>, a: nat)
    requires |cfg.c| == 3 && 1 <= level <= 3
  {
    a < |xs| && forall i | a <= i < |xs| :: Below(cfg, level, xs[i])
  }

  /** The dwell the documentation promises: below the threshold for a full interval, up to the last input. */
  ghost predicate FullInterval(cfg: Settings, level: nat, xs: seq<Input>)
    requires |cfg.c| == 3 && 1 <= level <= 3
  {
    exists a: nat :: BelowFrom(cfg, level, xs, a) && xs[|xs| - 1].now - xs[a].now >= cfg.interval
  }

  /** Every release lowers the ladder by one step, a full interval after its timer's start, and every input after that
      start was below the released step's threshold. The promised dwell holds exactly when the starting input was below
      the threshold too, or the input after it is a full interval old itself; the starting input can only be above where
      it dropped the step above. */
  lemma ReleaseFollowsDwell(cfg: Settings, s: State, xs: seq<Input>) returns (a: nat)
    requires cfg.Valid() && s.level <= 3 && s.tempSince.None? && Ordered(xs) && Releases(cfg, s, xs)
    ensures var n, level := |xs| - 1, After(cfg, s, xs[..|xs| - 1]).level;
      && After(cfg, s, xs).level == level - 1 && Dwell(cfg, s, xs[..n], a) && xs[n].now - xs[a].now >= cfg.interval
      && BelowFrom(cfg, level, xs, a + 1)
      && (Below(cfg, level, xs[a]) || Dropped(cfg, s, xs[..n], a, level))
      && (FullInterval(cfg, level, xs) <==> Below(cfg, level, xs[a]) || xs[n].now - xs[a + 1].now >= cfg.interval)
  {
    a := ReleaseHasStart(cfg, s, xs);
    FullIntervalExactly(cfg, After(cfg, s, xs[..|xs| - 1]).level, xs, a);
  }

  lemma ReleaseHasStart(cfg: Settings, s: State, xs: seq<Input>) returns (a: nat)
    requires cfg.Valid() && s.level <= 3 && s.tempSince.None? && Releases(cfg, s, xs)
    ensures var n, level := |xs| - 1, After(cfg, s, xs[..|xs| - 1]).level;
      && After(cfg, s, xs).level == level - 1 && Dwell(cfg, s, xs[..n], a) && xs[n].now - xs[a].now >= cfg.interval
      && BelowFrom(cfg, level, xs, a + 1)
      && (Below(cfg, level, xs[a]) || Dropped(cfg, s, xs[..n], a, level))
  {
    var front, x := xs[..|xs| - 1], xs[|xs| - 1];
    var f := After(cfg, s, front);
    if f.tempSince.None? {
      assert false;
    }
    DwellHasStart(cfg, s, front);
    a :| Dwell(cfg, s, front, a);
    assert front[a] == xs[a];
    assert Below(cfg, f.level, x);
    forall i | a < i < |xs|
      ensures Below(cfg, f.level, xs[i])
    {
      if i < |front| {
        assert front[i] == xs[i];
      }
    }
  }

  lemma FullIntervalExactly(cfg: Settings, level: nat, xs: seq<Input>, a: nat)
    requires |cfg.c| == 3 && 1 <= level <= 3 && Ordered(xs) && a + 1 < |xs|
    requires BelowFrom(cfg, level, xs, a + 1) && xs[|xs| - 1].now - xs[a].now >= cfg.interval
    ensures FullInterval(cfg, level, xs) <==>
              Below(cfg, level, xs[a]) || xs[|xs| - 1].now - xs[a + 1].now >= cfg.interval
  {
    if Below(cfg, level, xs[a]) {
      assert BelowFrom(cfg, level, xs, a);
    } else if FullInterval(cfg, level, xs) {
      var b: nat :| BelowFrom(cfg, level, xs, b) && xs[|xs| - 1].now - xs[b].now >= cfg.interval;
      assert b > a;
    }
  }

  /** The promised dwell can fail: on one reading below the threshold of step 2 the ladder leaves it, because its timer
      began with the drop from step 3, when the temperature was still above that threshold. */
  lemma EarlyRelease(cfg: Settings)
    requires cfg.Valid() && cfg.c == [78.0, 84.0, 90.0] && cfg.hysteresis == 6.0 && cfg.interval == 20.0
    ensures var xs := [Input(0.0, Some(90.0), None), Input(1.0, Some(83.0), None), Input(21.0, Some(83.0), None),
                       Input(41.0, Some(77.0), None)];
      && Releases(cfg, INITIAL, xs) && After(cfg, INITIAL, xs).level == 1 && !FullInterval(cfg, 2, xs)
  {
    var xs := [Input(0.0, Some(90.0), None), Input(1.0, Some(83.0), None), Input(21.0, Some(83.0), None),
               Input(41.0, Some(77.0), None)];
    assert xs[..3][..2] == xs[..2] && xs[..2][..1] == xs[..1] && xs[..1][..0] == [];
    assert After(cfg, INITIAL, xs[..1]) == State(false, None, 3, None);
    assert After(cfg, INITIAL, xs[..2]) == State(false, None, 3, Some(1.0));
    assert After(cfg, INITIAL, xs[..3]) == State(false, None, 2, Some(21.0));
    assert !Below(cfg, 2, xs[2]);
  }

  // ----- The power rule

  ghost predicate LowPower(cfg: Settings, x: Input) {
    x.power.Some? && x.power.value < cfg.powerW - 5.0
  }

  /** The power timer was started by input `a`, and every input from it on was below the release threshold. */
  ghost predicate PowerDwell(cfg: Settings, s: State, xs: seq<Input>, a: nat)
    requires cfg.Valid() && s.level <= 3
  {
    LowFrom(cfg, xs, a) && After(cfg, s, xs).powerSince == Some(xs[a].now)
  }

  ghost predicate LowFrom(cfg: Settings, xs: seq<Input>, a: nat) {
    a < |xs| && forall i | a <= i < |xs| :: LowPower(cfg, xs[i])
  }

  lemma {:induction false} PowerDwellHasStart(cfg: Settings, s: State, xs: seq<Input>)
    requires cfg.Valid() && s.level <= 3 && s.powerSince.None?
    requires After(cfg, s, xs).powerSince.Some?
    ensures exists a: nat :: PowerDwell(cfg, s, xs, a)
  {
    assert xs != [];
    var front := xs[..|xs| - 1];
    if After(cfg, s, front).powerSince.Some? {
      PowerDwellHasStart(cfg, s, front);
      var a: nat :| PowerDwell(cfg, s, front, a);
      assert front[a] == xs[a] && forall i | 0 <= i < |front| :: front[i] == xs[i];
      assert PowerDwell(cfg, s, xs, a);
    } else {
      assert PowerDwell(cfg, s, xs, |xs| - 1);
    }
  }

  /** While the power is read, the power rule is released only after a full interval below its threshold. */
  lemma PowerRelease(cfg: Settings, s: State, xs: seq<Input>)
    requires cfg.Valid() && s.level <= 3 && s.powerSince.None? && xs != [] && xs[|xs| - 1].power.Some?
    requires After(cfg, s, xs[..|xs| - 1]).powerOn && !After(cfg, s, xs).powerOn
    ensures exists a: nat :: LowFrom(cfg, xs, a) && xs[|xs| - 1].now - xs[a].now >= cfg.interval
  {
    var front := xs[..|xs| - 1];
    PowerOff(cfg, After(cfg, s, front), xs[|xs| - 1]);
    PowerDwellHasStart(cfg, s, front);
    var a: nat :| PowerDwell(cfg, s, front, a);
    LowFromGrows(cfg, xs, a);
  }

  lemma LowFromGrows(cfg: Settings, xs: seq<Input>, a: nat)
    requires xs != [] && LowFrom(cfg, xs[..|xs| - 1], a) && LowPower(cfg, xs[|xs| - 1])
    ensures LowFrom(cfg, xs, a) && xs[..|xs| - 1][a] == xs[a]
  {
    var front := xs[..|xs| - 1];
    assert forall i | 0 <= i < |front| :: front[i] == xs[i];
  }

  lemma PowerOff(cfg: Settings, s: State, x: Input)
    requires cfg.Valid() && s.level <= 3 && s.powerOn && x.power.Some? && !Decide(s, cfg, x).0.powerOn
    ensures LowPower(cfg, x) && s.powerSince.Some? && x.now - s.powerSince.value >= cfg.interval
  {
  }

  // ----- Releases come

  /** From the first input on, all below the release threshold of `level`, with a full interval between the first and
      the last. */
  ghost predicate CoolFor(cfg: Settings, level: nat, xs: seq<Input>)
    requires |cfg.c| == 3 && 1 <= level <= 3
  {
    Ordered(xs) && BelowFrom(cfg, level, xs, 0) && xs[|xs| - 1].now - xs[0].now >= cfg.interval
  }

  lemma {:induction false} CoolKeeps(cfg: Settings, s: State, xs: seq<Input>)
    requires cfg.Valid() && 1 <= s.level <= 3 && BelowFrom(cfg, s.level, xs, 0)
    requires s.tempSince.Some? ==> s.tempSince.value <= xs[0].now
    ensures var e := After(cfg, s, xs);
      e.level < s.level || (e.level == s.level && e.tempSince.Some? && e.tempSince.value <= xs[0].now)
    decreases |xs|
  {
    var front, x := xs[..|xs| - 1], xs[|xs| - 1];
    if front == [] {
      assert After(cfg, s, front) == s;
      CoolStep(cfg, s, x);
    } else {
      assert BelowFrom(cfg, s.level, front, 0);
      CoolKeeps(cfg, s, front);
      if After(cfg, s, front).level == s.level {
        CoolStep(cfg, After(cfg, s, front), x);
      } else {
        StaysBelow(cfg, After(cfg, s, front), x, s.level);
      }
    }
  }

  /** An input below the threshold takes no step up, starts the timer or lets it run, and releases the step when the
      timer is a full interval old; the timer of the step below then starts at once. */
  lemma CoolStep(cfg: Settings, s: State, x: Input)
    requires cfg.Valid() && 1 <= s.level <= 3 && Below(cfg, s.level, x)
    ensures var e := Decide(s, cfg, x).0; var since := if s.tempSince.Some? then s.tempSince.value else x.now;
      if x.now - since >= cfg.interval then
        e.level == s.level - 1 && e.tempSince == if e.level == 0 then None else Some(x.now)
      else e.level == s.level && e.tempSince == Some(since)
  {
  }

  lemma StaysBelow(cfg: Settings, s: State, x: Input, level: nat)
    requires cfg.Valid() && s.level < level <= 3 && Below(cfg, level, x)
    ensures Decide(s, cfg, x).0.level < level
  {
  }

  /** Every step engaged is released: after a full interval below its threshold the ladder is under it. */
  lemma StepReleased(cfg: Settings, s: State, xs: seq<Input>)
    requires cfg.Valid() && 1 <= s.level <= 3 && CoolFor(cfg, s.level, xs)
    requires s.tempSince.Some? ==> s.tempSince.value <= xs[0].now
    ensures After(cfg, s, xs).level < s.level
  {
    var front, x := xs[..|xs| - 1], xs[|xs| - 1];
    assert |xs| > 1;
    assert BelowFrom(cfg, s.level, front, 0);
    CoolKeeps(cfg, s, front);
    if After(cfg, s, front).level == s.level {
      CoolStep(cfg, After(cfg, s, front), x);
    } else {
      StaysBelow(cfg, After(cfg, s, front), x, s.level);
    }
  }

  lemma LowStep(cfg: Settings, s: State, x: Input)
    requires cfg.Valid() && s.level <= 3 && LowPower(cfg, x)
    ensures var e := Decide(s, cfg, x).0; var since := if s.powerSince.Some? then s.powerSince.value else x.now;
      if !s.powerOn || x.now - since >= cfg.interval then !e.powerOn
      else e.powerOn && e.powerSince == Some(since)
  {
  }

  lemma {:induction false} LowKeeps(cfg: Settings, s: State, xs: seq<Input>)
    requires cfg.Valid() && s.level <= 3 && LowFrom(cfg, xs, 0)
    requires s.powerSince.Some? ==> s.powerSince.value <= xs[0].now
    ensures var e := After(cfg, s, xs);
      e.powerOn ==> e.powerSince.Some? && e.powerSince.value <= xs[0].now
    decreases |xs|
  {
    var front, x := xs[..|xs| - 1], xs[|xs| - 1];
    if front == [] {
      assert After(cfg, s, front) == s;
    } else {
      assert LowFrom(cfg, front, 0);
      LowKeeps(cfg, s, front);
    }
    LowStep(cfg, After(cfg, s, front), x);
  }

  /** And so is the power rule: after a full interval below its release threshold it is off. */
  lemma PowerReleased(cfg: Settings, s: State, xs: seq<Input>)
    requires cfg.Valid() && s.level <= 3 && LowFrom(cfg, xs, 0) && Ordered(xs)
    requires xs[|xs| - 1].now - xs[0].now >= cfg.interval
    requires s.powerSince.Some? ==> s.powerSince.value <= xs[0].now
    ensures !After(cfg, s, xs).powerOn
  {
    var front, x := xs[..|xs| - 1], xs[|xs| - 1];
    assert |xs| > 1;
    assert LowFrom(cfg, front, 0);
    LowKeeps(cfg, s, front);
    LowStep(cfg, After(cfg, s, front), x);
  }

  /** Engaging is immediate: the highest threshold met is the least level, and the power threshold turns its rule on;
      between a threshold and its release threshold nothing changes but the timer, which stops. */
  lemma Engages(cfg: Settings, s: State, x: Input)
    requires cfg.Valid() && s.level <= 3
    ensures var e := Decide(s, cfg, x).0;
      && (x.temp.Some? && x.temp.value >= cfg.c[0] ==> e.level >= 1)
      && (x.temp.Some? && x.temp.value >= cfg.c[1] ==> e.level >= 2)
      && (x.temp.Some? && x.temp.value >= cfg.c[2] ==> e.level == 3)
      && (x.power.Some? && x.power.value >= cfg.powerW ==> e.powerOn)
      && (x.temp.Some? && s.level > 0 && !Below(cfg, s.level, x) ==> e.level >= s.level && e.tempSince.None?)
      && (x.temp.Some? && e.level > s.level ==> x.temp.value >= cfg.c[e.level - 1])
      && (x.power.Some? && !(x.power.value < cfg.powerW - 5.0) && x.power.value < cfg.powerW ==>
            e.powerOn == s.powerOn && e.powerSince.None?)
      && (x.power.Some? && x.power.value < cfg.powerW ==> (e.powerOn ==> s.powerOn))
  {
  }

  /** The floor asked for is that of the engaged rules, the higher of the two, within the cap: 0 exactly when neither is
      engaged. */
  lemma TargetIs(s: State, cfg: Settings, x: Input)
    requires cfg.Valid() && s.level <= 3
    ensures var (e, target) := Decide(s, cfg, x);
      && (target == 0 <==> e.level == 0 && !e.powerOn)
      && (e.level > 0 ==> target == cfg.maxRpm || target >= cfg.rpm[e.level - 1])
      && (e.powerOn ==> target == cfg.maxRpm || target >= cfg.powerRpm)
      && (target == 0 || target == cfg.maxRpm || (e.level > 0 && target == cfg.rpm[e.level - 1])
          || (e.powerOn && target == cfg.powerRpm))
      && target <= cfg.maxRpm
      && (target == cfg.maxRpm ==>
            (e.level > 0 && cfg.rpm[e.level - 1] >= cfg.maxRpm) || (e.powerOn && cfg.powerRpm >= cfg.maxRpm))
  {
  }
}
