/** `GovernorPolicy` in the form the code has: an object whose methods pop deques, loop over samples and update timers
    in place. Each method is proved to compute the corresponding function of `Policy`. */
module PolicyObject {
  import opened Options
  import opened Policy

  class GovernorPolicy {
    const gain: Gain
    var config: Config
    var snap: Snapshot
    var inputs: seq<Timed>
    var packages: seq<Timed>
    var capacities: seq<Timed>
    var lastSmc: Option<real>
    var lastPackage: Option<real>
    var lastNonCpu: Option<real>
    var lastNonCpuSmc: Option<real>
    var timers: Timers
    var lastIncrease: Option<real>
    var nonCpuReady: bool
    var limitReady: bool

    function Value(): State
      reads this
    {
      State(config, snap, inputs, packages, capacities, lastSmc, lastPackage, lastNonCpu, lastNonCpuSmc,
            timers, lastIncrease, nonCpuReady, limitReady)
    }

    constructor (config: Config, gain: Gain)
      ensures Value() == Fresh(config) && this.gain == gain
    {
      this.config, this.gain, snap := config, gain, Fresh(config).snap;
      inputs, packages, capacities := [], [], [];
      lastSmc, lastPackage, lastNonCpu, lastNonCpuSmc, lastIncrease := None, None, None, None, None;
      timers := Timers(None, None, None, None, None);
      nonCpuReady, limitReady := false, false;
    }

    method ExpireSamples(now: real)
      modifies this`inputs, this`packages, this`capacities
      ensures Value() == Expire(old(Value()), now)
    {
      while inputs != [] && now - inputs[0].time > INPUT_WINDOW_S
        invariant DropOld(inputs, now, INPUT_WINDOW_S) == DropOld(old(inputs), now, INPUT_WINDOW_S)
        invariant packages == old(packages) && capacities == old(capacities)
        decreases |inputs|
      {
        inputs := inputs[1..];
      }
      while packages != [] && now - packages[0].time > ALIGNMENT_WINDOW_S
        invariant DropOld(packages, now, ALIGNMENT_WINDOW_S) == DropOld(old(packages), now, ALIGNMENT_WINDOW_S)
        invariant inputs == DropOld(old(inputs), now, INPUT_WINDOW_S) && capacities == old(capacities)
        decreases |packages|
      {
        packages := packages[1..];
      }
      while capacities != [] && now - capacities[0].time > CAPACITY_WINDOW_S
        invariant DropOld(capacities, now, CAPACITY_WINDOW_S) == DropOld(old(capacities), now, CAPACITY_WINDOW_S)
        invariant inputs == DropOld(old(inputs), now, INPUT_WINDOW_S)
        invariant packages == DropOld(old(packages), now, ALIGNMENT_WINDOW_S)
        decreases |capacities|
      {
        capacities := capacities[1..];
      }
    }

    method MedianOf(samples: seq<Timed>) returns (m: real)
      ensures m == Median(Values(samples))
    {
      var values: seq<real> := [];
      for i := 0 to |samples|
        invariant |values| == i && forall k | 0 <= k < i :: values[k] == samples[k].value
      {
        values := values + [samples[i].value];
      }
      assert values == Values(samples);
      m := MiddleOf(values);
    }

    method MiddleOf(values: seq<real>) returns (m: real)
      ensures m == Median(values)
    {
      var sorted := Sort(values);
      if sorted == [] {
        return 0.0;
      }
      var middle := |sorted| / 2;
      m := if |sorted| % 2 == 0 then (sorted[middle - 1] + sorted[middle]) / 2.0 else sorted[middle];
    }

    method UpdateThresholds()
      modifies this`snap
      ensures Value() == Thresholds(old(Value()))
    {
      var capacity := MedianOf(capacities);
      snap := snap.(capacityW := capacity, guardW := config.guardRatio * capacity,
                    shedW := config.shedRatio * capacity, emergencyW := config.emergencyRatio * capacity);
    }

    method UpdateSMC(now: real, inputW: real, capacityW: real) returns (ok: bool)
      modifies this
      ensures ok == SmcAccepted(old(Value()), now, inputW, capacityW)
      ensures Value() == UpdateSmc(old(Value()), now, inputW, capacityW)
    {
      if now < 0.0 || (lastSmc.Some? && now < lastSmc.value)
         || !ValidPower(inputW, 250.0) || !ValidPower(capacityW, 250.0) || capacityW < 10.0 {
        return false;
      }
      PushSmc(now, inputW, capacityW);
      ExpireSamples(now);
      UpdateThresholds();
      return true;
    }

    method PushSmc(now: real, inputW: real, capacityW: real)
      modifies this`inputs, this`capacities, this`lastSmc, this`snap
      ensures inputs == old(inputs) + [Timed(now, inputW)] && capacities == old(capacities) + [Timed(now, capacityW)]
      ensures lastSmc == Some(now) && snap == old(snap).(inputW := inputW)
    {
      inputs := inputs + [Timed(now, inputW)];
      capacities := capacities + [Timed(now, capacityW)];
      lastSmc := Some(now);
      snap := snap.(inputW := inputW);
    }

    method UpdatePackagePower(now: real, packageW: real) returns (ok: bool)
      modifies this
      ensures ok == PackageAccepted(old(Value()), now, packageW)
      ensures Value() == UpdatePackage(old(Value()), now, packageW)
    {
      if now < 0.0 || (lastPackage.Some? && now < lastPackage.value) || !ValidPower(packageW, 200.0) {
        return false;
      }
      lastPackage := Some(now);
      snap := snap.(packageW := packageW);
      packages := packages + [Timed(now, packageW)];
      return true;
    }

    method FilteredInput() returns (mean: real)
      ensures mean == Mean(Values(inputs))
    {
      if inputs == [] {
        return 0.0;
      }
      var values := Values(inputs);
      var total := 0.0;
      for i := 0 to |inputs|
        invariant total == Sum(values[..i])
      {
        assert values[..i + 1][..i] == values[..i];
        total := total + inputs[i].value;
      }
      assert values[..|inputs|] == values;
      mean := total / |inputs| as real;
    }

    method FilteredPackage(now: real) returns (m: real)
      ensures m == Median(Inside(packages, now, PACKAGE_WINDOW_S))
    {
      var values: seq<real> := [];
      for i := 0 to |packages|
        invariant values == Inside(packages[..i], now, PACKAGE_WINDOW_S)
      {
        assert packages[..i + 1][..i] == packages[..i];
        if now >= packages[i].time && now - packages[i].time <= PACKAGE_WINDOW_S {
          values := values + [packages[i].value];
        }
      }
      assert packages[..|packages|] == packages;
      m := MiddleOf(values);
    }

    method AlignedPackage(now: real, filtered: real) returns (peak: real)
      ensures peak == Peak(filtered, Inside(packages, now, ALIGNMENT_WINDOW_S))
    {
      peak := filtered;
      for i := 0 to |packages|
        invariant peak == Peak(filtered, Inside(packages[..i], now, ALIGNMENT_WINDOW_S))
      {
        assert packages[..i + 1][..i] == packages[..i];
        ghost var seen := Inside(packages[..i], now, ALIGNMENT_WINDOW_S);
        assert (seen + [packages[i].value])[..|seen|] == seen && seen + [] == seen;
        if now >= packages[i].time && now - packages[i].time <= ALIGNMENT_WINDOW_S {
          peak := Max(peak, packages[i].value);
        }
      }
      assert packages[..|packages|] == packages;
    }

    method ObserveAt(now: real)
      modifies this`inputs, this`packages, this`capacities, this`snap
      ensures Value() == Observe(old(Value()), now)
    {
      ExpireSamples(now);
      UpdateThresholds();
      var input := FilteredInput();
      var package := FilteredPackage(now);
      var aligned := AlignedPackage(now, package);
      var ready := && inputs != [] && packages != [] && capacities != []
                   && SampleFresh(now, lastSmc) && SampleFresh(now, lastPackage) && snap.capacityW > 0.0;
      snap := snap.(filteredInputW := input, filteredPackageW := package, alignedPackageW := aligned, ready := ready);
    }

    method UpdateNonCPU(now: real)
      modifies this`snap, this`nonCpuReady, this`lastNonCpu, this`lastNonCpuSmc
      ensures Value() == NonCpu(old(Value()), now, gain)
    {
      if lastSmc == lastNonCpuSmc {
        return;
      }
      var raw := Max(0.0, snap.filteredInputW - snap.filteredPackageW);
      var observation := raw;
      if nonCpuReady && raw > snap.nonCpuW && snap.alignedPackageW - snap.filteredPackageW >= ALIGNMENT_DELTA_W {
        observation := snap.nonCpuW;
      }
      var estimate := observation;
      if nonCpuReady {
        var elapsed := if lastNonCpu.Some? then Clamp(now - lastNonCpu.value, 0.0, 2.0) else 0.0;
        estimate := Smoothed(snap.nonCpuW, observation, elapsed, gain);
      }
      snap := snap.(rawObservationW := raw, observationW := observation, nonCpuW := estimate);
      nonCpuReady, lastNonCpu, lastNonCpuSmc := true, Some(now), lastSmc;
    }

    method UpdateBandAt(now: real)
      modifies this`snap, this`timers
      ensures Value() == UpdateBand(old(Value()), now)
    {
      var band, t := DecideBand(now);
      snap, timers := snap.(band := band), t;
    }

    method DecideBand(now: real) returns (band: Band, t: Timers)
      ensures (band, t) == NextBand(snap, timers, now)
    {
      band, t := snap.band, timers;
      if snap.inputW >= snap.emergencyW || snap.predictedInputW >= snap.emergencyW {
        band := Emergency;
        t := t.(belowShed := None, belowGuard := None, belowCruise := None);
        return;
      }
      t := t.(guardHigh := Condition(snap.filteredInputW >= snap.guardW, now, t.guardHigh));
      t := t.(shedHigh := Condition(snap.filteredInputW >= snap.shedW, now, t.shedHigh));
      match snap.band {
        case Cruise =>
          if ElapsedOrZero(now, t.shedHigh) >= 1.0 {
            band := Shed;
          } else if ElapsedOrZero(now, t.guardHigh) >= 2.0 {
            band := Guard;
          }
        case Guard =>
          if ElapsedOrZero(now, t.shedHigh) >= 1.0 {
            band := Shed;
            t := t.(belowCruise := None);
          } else {
            var calm := snap.filteredInputW < snap.guardW - 0.03 * snap.capacityW;
            t := t.(belowCruise := Condition(calm, now, t.belowCruise));
            if ElapsedOrZero(now, t.belowCruise) >= 15.0 {
              band := Cruise;
              t := t.(belowCruise := None);
            }
          }
        case Shed =>
          t := t.(belowGuard := Condition(snap.filteredInputW < snap.guardW, now, t.belowGuard));
          if ElapsedOrZero(now, t.belowGuard) >= 10.0 {
            band := Guard;
            t := t.(belowGuard := None);
          }
        case Emergency =>
          t := t.(belowShed := Condition(snap.filteredInputW < snap.shedW, now, t.belowShed));
          if ElapsedOrZero(now, t.belowShed) >= 5.0 {
            band := Shed;
            t := t.(belowShed := None);
          }
      }
    }

    /** The slew limiter: down at once, up by a watt per interval, nothing inside the dead band. */
    method Slew(desired: real, interval: real, now: real) returns (pl1: real)
      modifies this`lastIncrease, this`limitReady
      ensures (pl1, lastIncrease) == NextLimit(snap.pl1W, desired, old(limitReady), old(lastIncrease), interval, now)
      ensures limitReady
    {
      pl1 := snap.pl1W;
      if !limitReady {
        pl1, limitReady, lastIncrease := desired, true, Some(now);
      } else if desired < pl1 - DEADBAND_W {
        pl1, lastIncrease := desired, Some(now);
      } else if desired > pl1 + DEADBAND_W && ElapsedOrZero(now, lastIncrease) >= interval {
        pl1, lastIncrease := Min(desired, pl1 + 1.0), Some(now);
      }
    }

    method UpdateLimitsAt(now: real)
      modifies this`snap, this`lastIncrease, this`limitReady
      ensures Value() == UpdateLimits(old(Value()), now)
    {
      var target := Target(snap, config);
      var desired := Clamp(target - snap.nonCpuW - config.reserveW, config.floorW, config.ceilingPl1W);
      var interval := RecoveryInterval(snap);
      var pl1 := Slew(desired, interval, now);
      var wanted := if snap.band == Cruise then pl1 + Max(0.0, config.burstW) else pl1;
      snap := snap.(targetW := target, desiredPl1W := desired, recoveryIntervalS := interval, pl1W := pl1,
                    pl2W := Clamp(wanted, pl1, config.ceilingPl2W));
    }

    method EvaluateAt(now: real) returns (result: Snapshot)
      modifies this
      ensures Value() == Evaluate(old(Value()), now, gain) && result == snap
    {
      if now < 0.0 {
        snap := snap.(ready := false);
        return snap;
      }
      ObserveAt(now);
      if snap.ready {
        Govern(now);
      }
      return snap;
    }

    /** The rest of a ready evaluation. */
    method Govern(now: real)
      modifies this`snap, this`nonCpuReady, this`lastNonCpu, this`lastNonCpuSmc, this`timers, this`lastIncrease,
          this`limitReady
      ensures Value() == Judge(UpdateLimits(UpdateBand(Predict(NonCpu(old(Value()), now, gain)), now), now))
    {
      EstimateInput(now);
      UpdateBandAt(now);
      UpdateLimitsAt(now);
      snap := snap.(overBudget := snap.band == Emergency && snap.pl1W <= config.floorW + 0.05
                                  && (snap.inputW >= snap.emergencyW || snap.predictedInputW >= snap.emergencyW));
    }

    method EstimateInput(now: real)
      modifies this`snap, this`nonCpuReady, this`lastNonCpu, this`lastNonCpuSmc
      ensures Value() == Predict(NonCpu(old(Value()), now, gain))
    {
      UpdateNonCPU(now);
      var rail := snap.filteredPackageW + snap.nonCpuW;
      var calibrated := config.slope * snap.packageW + config.interceptW;
      snap := snap.(predictedInputW := Max(rail, calibrated) + config.reserveW);
    }
  }
}
