/** What an evaluation of the policy controller makes of its samples and how it sets the limits: means, medians and
    peaks over their windows, readiness, the prediction, and the pace of the limits. */
module PolicyMeasures {
  import opened Options
  import opened Policy
  import opened PolicyRuns
  import opened PolicyFilters

  // ----- Sums, means and peaks

  lemma {:induction false} SumConcat(a: seq<real>, b: seq<real>)
    ensures Sum(a + b) == Sum(a) + Sum(b)
    decreases |b|
  {
    if b == [] {
      assert a + b == a;
    } else {
      assert (a + b)[..|a + b| - 1] == a + b[..|b| - 1];
      SumConcat(a, b[..|b| - 1]);
    }
  }

  lemma SumOne(x: real)
    ensures Sum([x]) == x
  {
    assert [x][..0] == [];
  }

  lemma {:induction false} SumBounds(s: seq<real>, lo: real, hi: real)
    requires forall i | 0 <= i < |s| :: lo <= s[i] <= hi
    ensures lo * |s| as real <= Sum(s) <= hi * |s| as real
    decreases |s|
  {
    if s != [] {
      SumBounds(s[..|s| - 1], lo, hi);
      OneMore(lo, |s|);
      OneMore(hi, |s|);
    }
  }

  lemma OneMore(x: real, n: nat)
    requires n > 0
    ensures x * (n - 1) as real + x == x * n as real
  {
    assert (n - 1) as real == n as real - 1.0;
  }

  /** The mean times the count is the sum. */
  lemma MeanTimesCount(s: seq<real>)
    requires s != []
    ensures Mean(s) * |s| as real == Sum(s)
  {
  }

  /** The mean lies where all values do. */
  lemma MeanBetween(s: seq<real>, lo: real, hi: real)
    requires s != [] && forall i | 0 <= i < |s| :: lo <= s[i] <= hi
    ensures lo <= Mean(s) <= hi
  {
    SumBounds(s, lo, hi);
    Quotient(lo, hi, Sum(s), |s| as real);
  }

  lemma Quotient(lo: real, hi: real, sum: real, n: real)
    requires n > 0.0 && lo * n <= sum <= hi * n
    ensures lo <= sum / n <= hi
  {
    var m := sum / n;
    assert m * n == sum;
    assert (m - lo) * n >= 0.0 && (hi - m) * n >= 0.0;
  }

  /** The peak is the largest of the start and the values. */
  lemma {:induction false} PeakIsLargest(start: real, values: seq<real>)
    ensures var p := Peak(start, values);
      && p >= start && (forall i | 0 <= i < |values| :: values[i] <= p)
      && (p == start || exists i :: 0 <= i < |values| && values[i] == p)
    decreases |values|
  {
    if values != [] {
      PeakIsLargest(start, values[..|values| - 1]);
    }
  }

  /** Taking what lies inside a window is done sample by sample. */
  lemma {:induction false} InsideConcat(a: seq<Timed>, b: seq<Timed>, now: real, window: real)
    ensures Inside(a + b, now, window) == Inside(a, now, window) + Inside(b, now, window)
    decreases |b|
  {
    if b == [] {
      assert a + b == a;
    } else {
      assert (a + b)[..|a + b| - 1] == a + b[..|b| - 1];
      InsideConcat(a, b[..|b| - 1], now, window);
    }
  }

  lemma InsideOne(s: Timed, now: real, window: real)
    ensures Inside([s], now, window) == if 0.0 <= now - s.time <= window then [s.value] else []
  {
    assert [s][..0] == [];
  }

  /** A window holds a sample exactly when there is one of that age. */
  lemma {:induction false} RecentHolds(h: seq<Timed>, now: real, window: real)
    ensures Recent(h, now, window) != [] <==> exists i :: 0 <= i < |h| && now - h[i].time <= window
    decreases |h|
  {
    if h != [] {
      RecentHolds(h[..|h| - 1], now, window);
    }
  }

  // ----- The measured snapshot

  /** The age of a time, from nought to two seconds. */
  ghost predicate YoungTime(now: real, time: Option<real>) {
    time.Some? && 0.0 <= now - time.value <= 2.0
  }

  /** The capacity is the median over its window, and the thresholds are its shares. */
  ghost predicate ThresholdsMeasured(e: State) {
    var p, c := e.snap, e.config;
    && p.capacityW == Median(Values(e.capacities)) && p.guardW == c.guardRatio * p.capacityW
    && p.shedW == c.shedRatio * p.capacityW && p.emergencyW == c.emergencyRatio * p.capacityW
  }

  /** The input is the mean over its window, the package power the median of the last second, and its envelope the peak
      of the last two. */
  ghost predicate PowersMeasured(e: State, now: real) {
    && e.snap.filteredInputW == Mean(Values(e.inputs))
    && e.snap.filteredPackageW == Median(Inside(e.packages, now, 1.0))
    && e.snap.alignedPackageW == Peak(e.snap.filteredPackageW, Inside(e.packages, now, 2.0))
  }

  /** Every window has a sample, both sources are at most two seconds old, and there is a capacity. */
  ghost predicate Complete(e: State, now: real) {
    && e.inputs != [] && e.packages != [] && e.capacities != []
    && YoungTime(now, e.lastSmc) && YoungTime(now, e.lastPackage) && e.snap.capacityW > 0.0
  }

  /** What the windows hold, and what is carried over. */
  ghost predicate Expired(st: State, e: State, now: real) {
    && e.inputs == DropOld(st.inputs, now, 1.0) && e.packages == DropOld(st.packages, now, 2.0)
    && e.capacities == DropOld(st.capacities, now, 10.0)
    && e.lastSmc == st.lastSmc && e.lastPackage == st.lastPackage && e.config == st.config
    && e.snap.inputW == st.snap.inputW && e.snap.packageW == st.snap.packageW
  }

  lemma ObserveExpires(st: State, now: real)
    ensures Expired(st, Observe(st, now), now)
  {
  }

  lemma ThresholdsMeasure(st: State)
    ensures ThresholdsMeasured(Thresholds(st))
  {
  }

  lemma SameThresholds(a: State, e: State)
    requires ThresholdsMeasured(a) && a.config == e.config && a.capacities == e.capacities
    requires a.snap.capacityW == e.snap.capacityW && a.snap.guardW == e.snap.guardW
    requires a.snap.shedW == e.snap.shedW && a.snap.emergencyW == e.snap.emergencyW
    ensures ThresholdsMeasured(e)
  {
  }

  lemma ObserveThresholds(st: State, now: real)
    ensures ThresholdsMeasured(Observe(st, now))
  {
    ThresholdsMeasure(Expire(st, now));
    SameThresholds(Thresholds(Expire(st, now)), Observe(st, now));
  }

  lemma ObservePowers(st: State, now: real)
    ensures PowersMeasured(Observe(st, now), now)
  {
  }

  lemma ObserveReady(st: State, now: real)
    ensures Observe(st, now).snap.ready <==> Complete(Observe(st, now), now)
  {
  }

  /** What an evaluation measures, and when it is ready. */
  lemma ObserveMeasures(st: State, now: real)
    ensures var e := Observe(st, now);
      && Expired(st, e, now) && ThresholdsMeasured(e) && PowersMeasured(e, now)
      && (e.snap.ready <==> Complete(e, now))
  {
    ObserveExpires(st, now);
    ObserveThresholds(st, now);
    ObservePowers(st, now);
    ObserveReady(st, now);
  }

  /** A sample is taken when it is not older than the last one of its source and within the range of its sensor. */
  lemma SmcTaken(st: State, now: real, inputW: real, capacityW: real)
    ensures var e := UpdateSmc(st, now, inputW, capacityW);
      var taken := now >= 0.0 && (st.lastSmc.Some? ==> now >= st.lastSmc.value)
                   && 0.0 <= inputW <= 250.0 && 10.0 <= capacityW <= 250.0;
      && (taken ==> e.snap.inputW == inputW && e.lastSmc == Some(now)
                    && e.inputs == DropOld(st.inputs + [Timed(now, inputW)], now, 1.0)
                    && e.packages == DropOld(st.packages, now, 2.0)
                    && e.capacities == DropOld(st.capacities + [Timed(now, capacityW)], now, 10.0)
                    && e.snap.capacityW == Median(Values(e.capacities))
                    && e.snap.emergencyW == e.config.emergencyRatio * e.snap.capacityW)
      && (!taken ==> e == st)
  {
  }

  lemma PackageTaken(st: State, now: real, packageW: real)
    ensures var e := UpdatePackage(st, now, packageW);
      if now >= 0.0 && (st.lastPackage.Some? ==> now >= st.lastPackage.value) && 0.0 <= packageW <= 200.0 then
        && e == st.(lastPackage := Some(now), packages := e.packages, snap := e.snap)
        && e.packages == st.packages + [Timed(now, packageW)] && e.snap == st.snap.(packageW := packageW)
      else e == st
  {
  }

  // ----- The prediction and the estimate

  /** The predicted input is the larger of the two estimates, with the reserve on top. */
  lemma Predicted(st: State)
    ensures var c, p, q := st.config, st.snap, Predict(st).snap.predictedInputW - st.config.reserveW;
      && q >= p.filteredPackageW + p.nonCpuW && q >= c.slope * p.packageW + c.interceptW
      && q in {p.filteredPackageW + p.nonCpuW, c.slope * p.packageW + c.interceptW}
      && Predict(st) == st.(snap := p.(predictedInputW := Predict(st).snap.predictedInputW))
  {
  }

  /** The filter: with a quarter of a second as the time constant upwards and five seconds downwards. */
  lemma SmoothedIs(estimate: real, observation: real, dt: real, gain: Gain)
    requires GainOk(gain) && estimate >= 0.0 && observation >= 0.0 && dt >= 0.0
    ensures dt == 0.0 ==> Smoothed(estimate, observation, dt, gain) == estimate
    ensures dt > 0.0 ==>
      var e := Smoothed(estimate, observation, dt, gain);
      && (observation < estimate ==> e == estimate + gain(dt / 5.0) * (observation - estimate))
      && (observation > estimate ==> e == estimate + gain(dt / 0.25) * (observation - estimate))
      && (observation == estimate ==> e == estimate)
  {
    if dt > 0.0 {
      var tau := if observation > estimate then 0.25 else 5.0;
      assert dt / tau > 0.0;
      Blend(estimate, observation, gain(dt / tau));
    }
  }

  /** One new observation moves the estimate by the filter over the time since the last one, at most two seconds; behind
      the gate, where the envelope is five watts above the filtered package power, it does not move it up. */
  lemma EstimateMoves(st: State, now: real, gain: Gain)
    requires st.nonCpuReady && st.lastNonCpu.Some?
    requires st.lastSmc != st.lastNonCpuSmc && now > st.lastNonCpu.value
    ensures var p, e := st.snap, NonCpu(st, now, gain);
      var dt := if now - st.lastNonCpu.value < 2.0 then now - st.lastNonCpu.value else 2.0;
      var raw := if p.filteredInputW > p.filteredPackageW then p.filteredInputW - p.filteredPackageW else 0.0;
      var held := raw > p.nonCpuW && p.alignedPackageW >= p.filteredPackageW + 5.0;
      && e.snap.nonCpuW == Smoothed(p.nonCpuW, if held then p.nonCpuW else raw, dt, gain)
      && e.lastNonCpu == Some(now) && e.lastNonCpuSmc == st.lastSmc
  {
  }

  // ----- The pace of the limits

  /** The share of the capacity each band aims for; the floor in an emergency. */
  lemma TargetOfBand(p: Snapshot, c: Config)
    ensures p.band == Cruise ==> Target(p, c) == c.cruiseTargetRatio * p.capacityW
    ensures p.band == Guard ==> Target(p, c) == c.guardTargetRatio * p.capacityW
    ensures p.band == Shed ==> Target(p, c) == c.shedTargetRatio * p.capacityW
    ensures p.band == Emergency ==> Target(p, c) == c.floorW
  {
  }

  /** The seconds between two raises: one with a tenth of the capacity to spare below the guard threshold, two with a
      twentieth, five with less. */
  ghost predicate Pace(p: Snapshot, seconds: real) {
    var risk := if p.inputW > p.predictedInputW then p.inputW else p.predictedInputW;
    if p.capacityW <= 0.0 || p.guardW - risk < 0.05 * p.capacityW then seconds == 5.0
    else if p.guardW - risk < 0.10 * p.capacityW then seconds == 2.0
    else seconds == 1.0
  }

  /** What one update of the limits does: PL1 goes down to what the band allows at once, up by at most a watt when the
      pace allows, and stays within a quarter of a watt; the short-term limit adds the burst in Cruise. */
  lemma LimitsMove(st: State, now: real)
    requires st.config.Sound() && st.limitReady && st.config.floorW <= st.snap.pl1W <= st.config.ceilingPl1W
    ensures var e, c, p := UpdateLimits(st, now), st.config, st.snap;
      var wanted := Target(p, c) - p.nonCpuW - c.reserveW;
      var desired := if wanted < c.floorW then c.floorW else if wanted > c.ceilingPl1W then c.ceilingPl1W else wanted;
      var due := st.lastIncrease.Some? && now >= st.lastIncrease.value
                 && now - st.lastIncrease.value >= e.snap.recoveryIntervalS;
      && e.snap.targetW == Target(p, c) && e.snap.desiredPl1W == desired && Pace(p, e.snap.recoveryIntervalS)
      && (desired < p.pl1W - 0.25 ==> e.snap.pl1W == desired)
      && (desired > p.pl1W + 0.25 && due ==>
            e.snap.pl1W == if desired < p.pl1W + 1.0 then desired else p.pl1W + 1.0)
      && (!(desired < p.pl1W - 0.25) && !(desired > p.pl1W + 0.25 && due) ==> e.snap.pl1W == p.pl1W)
      && (c.burstW >= 0.0 && p.band == Cruise && e.snap.pl1W + c.burstW <= c.ceilingPl2W ==>
            e.snap.pl2W == e.snap.pl1W + c.burstW)
      && (p.band != Cruise && e.snap.pl1W <= c.ceilingPl2W ==> e.snap.pl2W == e.snap.pl1W)
  {
  }

  /** The first update takes PL1 to what the band allows. */
  lemma FirstLimits(st: State, now: real)
    requires st.config.Sound() && !st.limitReady
    ensures var e, c := UpdateLimits(st, now), st.config;
      var wanted := Target(st.snap, c) - st.snap.nonCpuW - c.reserveW;
      && e.snap.pl1W
         == (if wanted < c.floorW then c.floorW else if wanted > c.ceilingPl1W then c.ceilingPl1W else wanted)
      && e.limitReady && e.lastIncrease == Some(now)
  {
  }

  /** Over budget means an emergency that the floor cannot answer. */
  lemma OverBudgetExactly(st: State, now: real, gain: Gain)
    requires ReadyAt(st, Evaluation(now))
    ensures var p := Evaluate(st, now, gain).snap;
      p.overBudget <==> p.band == Emergency && p.pl1W - st.config.floorW <= 0.05 && EmergencyCondition(p)
  {
    KeepsConfig(Observe(st, now), now, gain);
  }

  lemma KeepsConfig(o: State, now: real, gain: Gain)
    ensures UpdateLimits(UpdateBand(Predict(NonCpu(o, now, gain)), now), now).config == o.config
  {
  }

  /** An emergency condition is a measured or a predicted input at the emergency threshold. */
  lemma EmergencyExactly(p: Snapshot)
    ensures EmergencyCondition(p) <==> !(p.inputW < p.emergencyW && p.predictedInputW < p.emergencyW)
  {
  }
}
