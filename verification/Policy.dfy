/** The macOS policy controller: sliding windows, thresholds, the non-CPU estimate, the four bands and the limits.

    Watts and seconds are reals; an unset time is `None`. The smoothing gain 1 - exp(-x) is a parameter of which only
    the range is used. */
module Policy {
  import opened Options

  const INPUT_WINDOW_S := 1.0
  const PACKAGE_WINDOW_S := 1.0
  const ALIGNMENT_WINDOW_S := 2.0
  const CAPACITY_WINDOW_S := 10.0
  const FRESH_S := 2.0
  const RISE_TAU_S := 0.25
  const FALL_TAU_S := 5.0
  const ALIGNMENT_DELTA_W := 5.0
  const DEADBAND_W := 0.25

  datatype Band = Cruise | Guard | Shed | Emergency {
    function Rank(): nat {
      match this
      case Cruise => 0
      case Guard => 1
      case Shed => 2
      case Emergency => 3
    }
  }

  datatype Config = Config(
    reserveW: real, floorW: real, ceilingPl1W: real, ceilingPl2W: real, burstW: real, slope: real, interceptW: real,
    guardRatio: real, shedRatio: real, emergencyRatio: real,
    cruiseTargetRatio: real, guardTargetRatio: real, shedTargetRatio: real)
  {
    predicate Sound() { reserveW >= 0.0 && floorW <= ceilingPl1W }
  }

  datatype Snapshot = Snapshot(
    band: Band, capacityW: real, inputW: real, filteredInputW: real, predictedInputW: real,
    packageW: real, filteredPackageW: real, alignedPackageW: real,
    nonCpuW: real, rawObservationW: real, observationW: real,
    guardW: real, shedW: real, emergencyW: real,
    targetW: real, desiredPl1W: real, pl1W: real, pl2W: real, recoveryIntervalS: real,
    overBudget: bool, ready: bool)

  datatype Timed = Timed(time: real, value: real)

  datatype Timers = Timers(
    guardHigh: Option<real>, shedHigh: Option<real>,
    belowShed: Option<real>, belowGuard: Option<real>, belowCruise: Option<real>)

  datatype State = State(
    config: Config, snap: Snapshot,
    inputs: seq<Timed>, packages: seq<Timed>, capacities: seq<Timed>,
    lastSmc: Option<real>, lastPackage: Option<real>, lastNonCpu: Option<real>, lastNonCpuSmc: Option<real>,
    timers: Timers, lastIncrease: Option<real>, nonCpuReady: bool, limitReady: bool)

  /** 1 - exp(-x) for positive x. */
  type Gain = real -> real

  ghost predicate GainOk(gain: Gain) { forall x: real :: x > 0.0 ==> 0.0 <= gain(x) < 1.0 }

  function Min(a: real, b: real): real { if b < a then b else a }
  function Max(a: real, b: real): real { if a < b then b else a }
  function Clamp(v: real, low: real, high: real): real { Max(low, Min(v, high)) }

  function Fresh(c: Config): State {
    var snap := Snapshot(Cruise, 0.0, 0.0, 0.0, 0.0, 0.0, 0.0, 0.0, 0.0, 0.0, 0.0, 0.0, 0.0, 0.0, 0.0, 0.0, 0.0, 0.0,
                         5.0, false, false);
    State(c, snap, [], [], [], None, None, None, None, Timers(None, None, None, None, None), None, false, false)
  }

  // ----- Windows and filters

  /** Drop samples from the front while they are older than the window. */
  function DropOld(samples: seq<Timed>, now: real, window: real): seq<Timed>
    decreases |samples|
  {
    if samples != [] && now - samples[0].time > window then DropOld(samples[1..], now, window) else samples
  }

  function Values(samples: seq<Timed>): seq<real> {
    seq(|samples|, i requires 0 <= i < |samples| => samples[i].value)
  }

  function Insert(x: real, sorted: seq<real>): seq<real> {
    if sorted == [] || x <= sorted[0] then [x] + sorted else [sorted[0]] + Insert(x, sorted[1..])
  }

  function Sort(values: seq<real>): (r: seq<real>)
    ensures |r| == |values|
    decreases |values|
  {
    if values == [] then [] else InsertLength(values[0], Sort(values[1..])); Insert(values[0], Sort(values[1..]))
  }

  lemma InsertLength(x: real, s: seq<real>)
    ensures |Insert(x, s)| == |s| + 1
  {
  }

  function Median(values: seq<real>): real {
    var sorted := Sort(values);
    var middle := |sorted| / 2;
    if sorted == [] then 0.0
    else if |sorted| % 2 == 0 then (sorted[middle - 1] + sorted[middle]) / 2.0
    else sorted[middle]
  }

  function Sum(values: seq<real>): real
    decreases |values|
  {
    if values == [] then 0.0 else Sum(values[..|values| - 1]) + values[|values| - 1]
  }

  function Mean(values: seq<real>): real {
    if values == [] then 0.0 else Sum(values) / |values| as real
  }

  /** The values measured within `window` of `now`. */
  function Inside(samples: seq<Timed>, now: real, window: real): seq<real>
    decreases |samples|
  {
    if samples == [] then []
    else
      var n := |samples| - 1;
      var s := samples[n];
      Inside(samples[..n], now, window) + if now >= s.time && now - s.time <= window then [s.value] else []
  }

  function Peak(start: real, values: seq<real>): real
    decreases |values|
  {
    if values == [] then start else Max(Peak(start, values[..|values| - 1]), values[|values| - 1])
  }

  // ----- Samples

  predicate ValidPower(v: real, maximum: real) { 0.0 <= v <= maximum }

  function Expire(st: State, now: real): State {
    st.(inputs := DropOld(st.inputs, now, INPUT_WINDOW_S),
        packages := DropOld(st.packages, now, ALIGNMENT_WINDOW_S),
        capacities := DropOld(st.capacities, now, CAPACITY_WINDOW_S))
  }

  function Thresholds(st: State): State {
    var capacity := Median(Values(st.capacities));
    st.(snap := st.snap.(capacityW := capacity, guardW := st.config.guardRatio * capacity,
                         shedW := st.config.shedRatio * capacity, emergencyW := st.config.emergencyRatio * capacity))
  }

  predicate SmcAccepted(st: State, now: real, inputW: real, capacityW: real) {
    && now >= 0.0 && (st.lastSmc.Some? ==> st.lastSmc.value <= now)
    && ValidPower(inputW, 250.0) && ValidPower(capacityW, 250.0) && capacityW >= 10.0
  }

  function UpdateSmc(st: State, now: real, inputW: real, capacityW: real): State {
    if !SmcAccepted(st, now, inputW, capacityW) then st
    else
      var pushed := st.(inputs := st.inputs + [Timed(now, inputW)],
                        capacities := st.capacities + [Timed(now, capacityW)],
                        lastSmc := Some(now), snap := st.snap.(inputW := inputW));
      Thresholds(Expire(pushed, now))
  }

  predicate PackageAccepted(st: State, now: real, packageW: real) {
    now >= 0.0 && (st.lastPackage.Some? ==> st.lastPackage.value <= now) && ValidPower(packageW, 200.0)
  }

  function UpdatePackage(st: State, now: real, packageW: real): State {
    if !PackageAccepted(st, now, packageW) then st
    else st.(lastPackage := Some(now), packages := st.packages + [Timed(now, packageW)],
             snap := st.snap.(packageW := packageW))
  }

  // ----- The non-CPU estimate

  /** The asymmetric filter: fast up, slow down. */
  function Smoothed(estimate: real, observation: real, elapsed: real, gain: Gain): real {
    var tau := if observation > estimate then RISE_TAU_S else FALL_TAU_S;
    var alpha := if elapsed <= 0.0 then 0.0 else gain(elapsed / tau);
    Max(0.0, estimate + alpha * (observation - estimate))
  }

  function NonCpu(st: State, now: real, gain: Gain): State {
    if st.lastSmc == st.lastNonCpuSmc then st
    else
      var p := st.snap;
      var raw := Max(0.0, p.filteredInputW - p.filteredPackageW);
      var gated := st.nonCpuReady && raw > p.nonCpuW && p.alignedPackageW - p.filteredPackageW >= ALIGNMENT_DELTA_W;
      var observation := if gated then p.nonCpuW else raw;
      var estimate :=
        if !st.nonCpuReady then observation
        else
          var elapsed := if st.lastNonCpu.Some? then Clamp(now - st.lastNonCpu.value, 0.0, 2.0) else 0.0;
          Smoothed(p.nonCpuW, observation, elapsed, gain);
      st.(snap := p.(rawObservationW := raw, observationW := observation, nonCpuW := estimate),
          nonCpuReady := true, lastNonCpu := Some(now), lastNonCpuSmc := st.lastSmc)
  }

  // ----- Bands

  function ElapsedOrZero(now: real, start: Option<real>): real {
    if start.None? || now < start.value then 0.0 else now - start.value
  }

  function Condition(c: bool, now: real, since: Option<real>): Option<real> {
    if !c then None else if since.None? then Some(now) else since
  }

  predicate EmergencyCondition(p: Snapshot) { p.inputW >= p.emergencyW || p.predictedInputW >= p.emergencyW }

  /** The band and the timers after one ready evaluation. */
  function NextBand(p: Snapshot, t: Timers, now: real): (Band, Timers) {
    if EmergencyCondition(p) then (Emergency, t.(belowShed := None, belowGuard := None, belowCruise := None))
    else
      var u := t.(guardHigh := Condition(p.filteredInputW >= p.guardW, now, t.guardHigh),
                  shedHigh := Condition(p.filteredInputW >= p.shedW, now, t.shedHigh));
      match p.band
      case Cruise =>
        if ElapsedOrZero(now, u.shedHigh) >= 1.0 then (Shed, u)
        else if ElapsedOrZero(now, u.guardHigh) >= 2.0 then (Guard, u)
        else (Cruise, u)
      case Guard =>
        if ElapsedOrZero(now, u.shedHigh) >= 1.0 then (Shed, u.(belowCruise := None))
        else
          var since := Condition(p.filteredInputW < p.guardW - 0.03 * p.capacityW, now, u.belowCruise);
          if ElapsedOrZero(now, since) >= 15.0 then (Cruise, u.(belowCruise := None))
          else (Guard, u.(belowCruise := since))
      case Shed =>
        var since := Condition(p.filteredInputW < p.guardW, now, u.belowGuard);
        if ElapsedOrZero(now, since) >= 10.0 then (Guard, u.(belowGuard := None)) else (Shed, u.(belowGuard := since))
      case Emergency =>
        var since := Condition(p.filteredInputW < p.shedW, now, u.belowShed);
        if ElapsedOrZero(now, since) >= 5.0 then (Shed, u.(belowShed := None)) else (Emergency, u.(belowShed := since))
  }

  function UpdateBand(st: State, now: real): State {
    var (band, timers) := NextBand(st.snap, st.timers, now);
    st.(snap := st.snap.(band := band), timers := timers)
  }

  // ----- Limits

  function Target(p: Snapshot, c: Config): real {
    match p.band
    case Cruise => c.cruiseTargetRatio * p.capacityW
    case Guard => c.guardTargetRatio * p.capacityW
    case Shed => c.shedTargetRatio * p.capacityW
    case Emergency => c.floorW
  }

  function RecoveryInterval(p: Snapshot): real {
    var headroom := p.guardW - Max(p.inputW, p.predictedInputW);
    if p.capacityW <= 0.0 then 5.0
    else if headroom >= 0.10 * p.capacityW then 1.0
    else if headroom >= 0.05 * p.capacityW then 2.0
    else 5.0
  }

  /** The new PL1 and the time of the last change. */
  function NextLimit(pl1: real, desired: real, ready: bool, last: Option<real>, interval: real, now: real)
    : (real, Option<real>)
  {
    if !ready || desired < pl1 - DEADBAND_W then (desired, Some(now))
    else if desired > pl1 + DEADBAND_W && ElapsedOrZero(now, last) >= interval then (Min(desired, pl1 + 1.0), Some(now))
    else (pl1, last)
  }

  function UpdateLimits(st: State, now: real): State {
    var c, p := st.config, st.snap;
    var target := Target(p, c);
    var desired := Clamp(target - p.nonCpuW - c.reserveW, c.floorW, c.ceilingPl1W);
    var interval := RecoveryInterval(p);
    var (pl1, last) := NextLimit(p.pl1W, desired, st.limitReady, st.lastIncrease, interval, now);
    var wanted := if p.band == Cruise then pl1 + Max(0.0, c.burstW) else pl1;
    st.(snap := p.(targetW := target, desiredPl1W := desired, recoveryIntervalS := interval, pl1W := pl1,
                   pl2W := Clamp(wanted, pl1, c.ceilingPl2W)),
        lastIncrease := last, limitReady := true)
  }

  // ----- Evaluation

  predicate SampleFresh(now: real, time: Option<real>) {
    time.Some? && now >= time.value && now - time.value <= FRESH_S
  }

  /** Windows, thresholds, filters and readiness. */
  function Observe(st: State, now: real): State {
    var e := Thresholds(Expire(st, now));
    var package := Median(Inside(e.packages, now, PACKAGE_WINDOW_S));
    var ready := && e.inputs != [] && e.packages != [] && e.capacities != []
                 && SampleFresh(now, e.lastSmc) && SampleFresh(now, e.lastPackage) && e.snap.capacityW > 0.0;
    e.(snap := e.snap.(filteredInputW := Mean(Values(e.inputs)), filteredPackageW := package,
                       alignedPackageW := Peak(package, Inside(e.packages, now, ALIGNMENT_WINDOW_S)), ready := ready))
  }

  function Predict(st: State): State {
    var c, p := st.config, st.snap;
    st.(snap := p.(predictedInputW :=
                     Max(p.filteredPackageW + p.nonCpuW, c.slope * p.packageW + c.interceptW) + c.reserveW))
  }

  function Judge(st: State): State {
    var p := st.snap;
    st.(snap := p.(overBudget := p.band == Emergency && p.pl1W <= st.config.floorW + 0.05 && EmergencyCondition(p)))
  }

  function Evaluate(st: State, now: real, gain: Gain): State {
    if now < 0.0 then st.(snap := st.snap.(ready := false))
    else
      var o := Observe(st, now);
      if !o.snap.ready then o
      else Judge(UpdateLimits(UpdateBand(Predict(NonCpu(o, now, gain)), now), now))
  }
}
