/** The windows, the median, the non-CPU estimate and the limits of the policy controller. */
module PolicyFilters {
  import opened Options
  import opened Policy
  import opened PolicyRuns

  // ----- Windows refine the full history

  /** The samples of a history no older than the window at time `now`. */
  function Recent(h: seq<Timed>, now: real, window: real): seq<Timed>
    decreases |h|
  {
    if h == [] then []
    else
      var n := |h| - 1;
      Recent(h[..n], now, window) + if now - h[n].time <= window then [h[n]] else []
  }

  /** A window that has never been expired is the whole history. */
  function RecentAt(h: seq<Timed>, at: Option<real>, window: real): seq<Timed> {
    if at.None? then h else Recent(h, at.value, window)
  }

  ghost predicate Sorted(h: seq<Timed>) {
    forall i, j | 0 <= i < j < |h| :: h[i].time <= h[j].time
  }

  lemma RecentConcat(a: seq<Timed>, b: seq<Timed>, now: real, window: real)
    ensures Recent(a + b, now, window) == Recent(a, now, window) + Recent(b, now, window)
    decreases |b|
  {
    if b == [] {
      assert a + b == a;
    } else {
      var n := |b| - 1;
      assert (a + b)[..|a + b| - 1] == a + b[..n];
      RecentConcat(a, b[..n], now, window);
    }
  }

  lemma RecentAll(h: seq<Timed>, now: real, window: real)
    requires forall i | 0 <= i < |h| :: now - h[i].time <= window
    ensures Recent(h, now, window) == h
    decreases |h|
  {
    if h != [] {
      RecentAll(h[..|h| - 1], now, window);
    }
  }

  /** Popping from the front is filtering, because the samples are in time order. */
  lemma {:induction false} DropOldIsRecent(h: seq<Timed>, now: real, window: real)
    requires Sorted(h)
    ensures DropOld(h, now, window) == Recent(h, now, window)
    decreases |h|
  {
    if h != [] {
      if now - h[0].time > window {
        DropOldIsRecent(h[1..], now, window);
        assert h == [h[0]] + h[1..];
        RecentConcat([h[0]], h[1..], now, window);
        assert [h[0]][..0] == [];
      } else {
        RecentAll(h, now, window);
      }
    }
  }

  lemma {:induction false} RecentTwice(h: seq<Timed>, t1: real, t2: real, window: real)
    requires t1 <= t2
    ensures Recent(Recent(h, t1, window), t2, window) == Recent(h, t2, window)
    decreases |h|
  {
    if h != [] {
      var n := |h| - 1;
      var last := if t1 - h[n].time <= window then [h[n]] else [];
      RecentTwice(h[..n], t1, t2, window);
      RecentConcat(Recent(h[..n], t1, window), last, t2, window);
      assert [h[n]][..0] == [];
    }
  }

  lemma {:induction false} RecentSorted(h: seq<Timed>, now: real, window: real)
    requires Sorted(h)
    ensures Sorted(Recent(h, now, window))
    ensures forall x | x in Recent(h, now, window) :: x in h
    decreases |h|
  {
    if h != [] {
      var n := |h| - 1;
      RecentSorted(h[..n], now, window);
      var r := Recent(h[..n], now, window);
      assert forall i | 0 <= i < |r| :: r[i] in h[..n] && r[i].time <= h[n].time;
    }
  }

  /** Expiring a window that was right at an earlier time makes it right now. */
  lemma ExpireRefines(h: seq<Timed>, at: Option<real>, now: real, window: real)
    requires Sorted(h) && (at.Some? ==> at.value <= now)
    ensures DropOld(RecentAt(h, at, window), now, window) == Recent(h, now, window)
  {
    if at.None? {
      DropOldIsRecent(h, now, window);
    } else {
      RecentSorted(h, at.value, window);
      DropOldIsRecent(Recent(h, at.value, window), now, window);
      RecentTwice(h, at.value, now, window);
    }
  }

  /** A sample no older than the last expiry joins the window at the back. */
  lemma PushRefines(h: seq<Timed>, x: Timed, at: Option<real>, window: real)
    requires at.Some? ==> at.value - x.time <= window
    ensures RecentAt(h + [x], at, window) == RecentAt(h, at, window) + [x]
  {
    assert (h + [x])[..|h|] == h;
  }

  // ----- The history of a run, from the calls alone

  predicate GoodSmc(c: Call) {
    c.Smc? && c.now >= 0.0 && ValidPower(c.inputW, 250.0) && ValidPower(c.capacityW, 250.0) && c.capacityW >= 10.0
  }

  predicate GoodPackage(c: Call) { c.Package? && c.now >= 0.0 && ValidPower(c.packageW, 200.0) }

  datatype History = History(inputs: seq<Timed>, packages: seq<Timed>, capacities: seq<Timed>, expired: Option<real>)

  function HistoryStep(h: History, c: Call): History {
    if GoodSmc(c) then
      h.(inputs := h.inputs + [Timed(c.now, c.inputW)], capacities := h.capacities + [Timed(c.now, c.capacityW)],
         expired := Some(c.now))
    else if GoodPackage(c) then h.(packages := h.packages + [Timed(c.now, c.packageW)])
    else if c.Evaluation? && c.now >= 0.0 then h.(expired := Some(c.now))
    else h
  }

  /** Every accepted sample so far, and the last time the windows were expired. */
  function HistoryOf(calls: seq<Call>): History
    decreases |calls|
  {
    if calls == [] then History([], [], [], None)
    else HistoryStep(HistoryOf(calls[..|calls| - 1]), calls[|calls| - 1])
  }

  /** No sample and no expiry lies after `now`, and the samples are in time order. */
  ghost predicate Past(h: seq<Timed>, now: real) {
    Sorted(h) && forall i | 0 <= i < |h| :: h[i].time <= now
  }

  ghost predicate HistoryPast(h: History, now: real) {
    && Past(h.inputs, now) && Past(h.packages, now) && Past(h.capacities, now)
    && (h.expired.Some? ==> h.expired.value <= now)
  }

  lemma {:induction false} HistoryInOrder(calls: seq<Call>, now: real)
    requires Ordered(calls) && forall i | 0 <= i < |calls| :: calls[i].now <= now
    ensures HistoryPast(HistoryOf(calls), now)
    decreases |calls|
  {
    if calls != [] {
      OrderedPrefix(calls);
      HistoryInOrder(calls[..|calls| - 1], calls[|calls| - 1].now);
    }
  }

  /** The three windows, as they should be. */
  ghost predicate WindowsRefine(st: State, h: History) {
    && st.inputs == RecentAt(h.inputs, h.expired, INPUT_WINDOW_S)
    && st.packages == RecentAt(h.packages, h.expired, ALIGNMENT_WINDOW_S)
    && st.capacities == RecentAt(h.capacities, h.expired, CAPACITY_WINDOW_S)
  }

  lemma ExpireAll(st: State, h: History, now: real)
    requires WindowsRefine(st, h) && HistoryPast(h, now)
    ensures WindowsRefine(Expire(st, now), h.(expired := Some(now)))
  {
    ExpireRefines(h.inputs, h.expired, now, INPUT_WINDOW_S);
    ExpireRefines(h.packages, h.expired, now, ALIGNMENT_WINDOW_S);
    ExpireRefines(h.capacities, h.expired, now, CAPACITY_WINDOW_S);
  }

  lemma EvaluateWindows(st: State, now: real, gain: Gain)
    requires now >= 0.0
    ensures var e, x := Evaluate(st, now, gain), Expire(st, now);
      && e.inputs == x.inputs && e.packages == x.packages && e.capacities == x.capacities
      && e.lastSmc == st.lastSmc && e.lastPackage == st.lastPackage
  {
  }

  ghost predicate SamplesPast(st: State, now: real) {
    (st.lastSmc.Some? ==> st.lastSmc.value <= now) && (st.lastPackage.Some? ==> st.lastPackage.value <= now)
  }

  lemma WindowsStep(b: State, h: History, c: Call, gain: Gain)
    requires WindowsRefine(b, h) && HistoryPast(h, c.now) && SamplesPast(b, c.now)
    ensures WindowsRefine(Apply(b, c, gain), HistoryStep(h, c)) && SamplesPast(Apply(b, c, gain), c.now)
  {
    match c {
      case Smc(now, inputW, capacityW) => SmcStep(b, h, now, inputW, capacityW);
      case Package(now, packageW) => PackageStep(b, h, now, packageW);
      case Evaluation(now) => EvaluationStep(b, h, now, gain);
    }
  }

  lemma SmcStep(b: State, h: History, now: real, inputW: real, capacityW: real)
    requires WindowsRefine(b, h) && HistoryPast(h, now) && SamplesPast(b, now)
    ensures var e := UpdateSmc(b, now, inputW, capacityW);
      WindowsRefine(e, HistoryStep(h, Smc(now, inputW, capacityW))) && SamplesPast(e, now)
  {
    if GoodSmc(Smc(now, inputW, capacityW)) {
      SmcWindows(b, h, now, inputW, capacityW);
    }
  }

  lemma PackageStep(b: State, h: History, now: real, packageW: real)
    requires WindowsRefine(b, h) && HistoryPast(h, now) && SamplesPast(b, now)
    ensures var e := UpdatePackage(b, now, packageW);
      WindowsRefine(e, HistoryStep(h, Package(now, packageW))) && SamplesPast(e, now)
  {
    PushRefines(h.packages, Timed(now, packageW), h.expired, ALIGNMENT_WINDOW_S);
  }

  lemma EvaluationStep(b: State, h: History, now: real, gain: Gain)
    requires WindowsRefine(b, h) && HistoryPast(h, now) && SamplesPast(b, now)
    ensures var e := Evaluate(b, now, gain);
      WindowsRefine(e, HistoryStep(h, Evaluation(now))) && SamplesPast(e, now)
  {
    if now >= 0.0 {
      EvaluateWindows(b, now, gain);
      ExpireAll(b, h, now);
    }
  }

  /** In every run with one clock, each window holds exactly the accepted samples of its age or younger at the last
      expiry; after an evaluation at `now` that is `now`. */
  lemma {:induction false} WindowsOfRun(c: Config, calls: seq<Call>, gain: Gain, now: real)
    requires Ordered(calls) && forall i | 0 <= i < |calls| :: calls[i].now <= now
    ensures var st := Run(Fresh(c), calls, gain); WindowsRefine(st, HistoryOf(calls)) && SamplesPast(st, now)
    decreases |calls|
  {
    if calls != [] {
      var n := |calls| - 1;
      OrderedPrefix(calls);
      WindowsOfRun(c, calls[..n], gain, calls[n].now);
      HistoryInOrder(calls[..n], calls[n].now);
      WindowsStep(Run(Fresh(c), calls[..n], gain), HistoryOf(calls[..n]), calls[n], gain);
    }
  }

  /** After an evaluation, each deque is the full history filtered by its window. */
  lemma WindowsAfterEvaluation(c: Config, calls: seq<Call>, gain: Gain, now: real)
    requires Ordered(calls + [Evaluation(now)]) && now >= 0.0
    ensures var st, h := Run(Fresh(c), calls + [Evaluation(now)], gain), HistoryOf(calls);
      && st.inputs == Recent(h.inputs, now, 1.0) && st.packages == Recent(h.packages, now, 2.0)
      && st.capacities == Recent(h.capacities, now, 10.0)
  {
    var all := calls + [Evaluation(now)];
    OrderedPrefix(all);
    WindowsOfRun(c, all, gain, now);
    assert all[..|all| - 1] == calls;
    assert HistoryOf(all) == HistoryOf(calls).(expired := Some(now));
  }

  lemma SmcWindows(b: State, h: History, now: real, inputW: real, capacityW: real)
    requires WindowsRefine(b, h) && HistoryPast(h, now) && SmcAccepted(b, now, inputW, capacityW)
    ensures var e := UpdateSmc(b, now, inputW, capacityW);
      var i := History(h.inputs + [Timed(now, inputW)], h.packages, h.capacities + [Timed(now, capacityW)], Some(now));
      WindowsRefine(e, i) && e.lastSmc == Some(now) && e.lastPackage == b.lastPackage
  {
    var i := History(h.inputs + [Timed(now, inputW)], h.packages, h.capacities + [Timed(now, capacityW)], h.expired);
    PushRefines(h.inputs, Timed(now, inputW), h.expired, INPUT_WINDOW_S);
    PushRefines(h.capacities, Timed(now, capacityW), h.expired, CAPACITY_WINDOW_S);
    var pushed := b.(inputs := b.inputs + [Timed(now, inputW)], capacities := b.capacities + [Timed(now, capacityW)],
                     lastSmc := Some(now), snap := b.snap.(inputW := inputW));
    assert WindowsRefine(pushed, i) && HistoryPast(i, now);
    ExpireAll(pushed, i, now);
  }

  // ----- The median

  ghost predicate Ascending(s: seq<real>) {
    forall i, j | 0 <= i < j < |s| :: s[i] <= s[j]
  }

  lemma {:induction false} InsertElements(x: real, s: seq<real>)
    ensures multiset(Insert(x, s)) == multiset(s) + multiset{x}
    ensures forall y | y in Insert(x, s) :: y == x || y in s
    decreases |s|
  {
    if s != [] && x > s[0] {
      InsertElements(x, s[1..]);
      assert s == [s[0]] + s[1..];
    }
  }

  lemma {:induction false} InsertAscending(x: real, s: seq<real>)
    requires Ascending(s)
    ensures Ascending(Insert(x, s))
    decreases |s|
  {
    if s != [] && x > s[0] {
      InsertAscending(x, s[1..]);
      InsertElements(x, s[1..]);
      var r := Insert(x, s[1..]);
      assert forall i | 0 <= i < |r| :: r[i] in r && s[0] <= r[i];
    }
  }

  /** Sorting gives the same values in ascending order. */
  lemma {:induction false} SortAscending(values: seq<real>)
    ensures Ascending(Sort(values))
    decreases |values|
  {
    if values != [] {
      SortAscending(values[1..]);
      InsertAscending(values[0], Sort(values[1..]));
    }
  }

  lemma {:induction false} SortElements(values: seq<real>)
    ensures multiset(Sort(values)) == multiset(values)
    decreases |values|
  {
    if values != [] {
      var rest := values[1..];
      SortElements(rest);
      InsertElements(values[0], Sort(rest));
      assert values == [values[0]] + rest;
      assert multiset(values) == multiset{values[0]} + multiset(rest);
    }
  }

  lemma SortCorrect(values: seq<real>)
    ensures Ascending(Sort(values)) && multiset(Sort(values)) == multiset(values)
  {
    SortAscending(values);
    SortElements(values);
  }

  /** How many values lie outside [a, b]. */
  function Outside(s: seq<real>, a: real, b: real): nat
    decreases |s|
  {
    if s == [] then 0 else (if a <= s[0] <= b then 0 else 1) + Outside(s[1..], a, b)
  }

  lemma {:induction false} OutsideInsert(x: real, s: seq<real>, a: real, b: real)
    ensures Outside(Insert(x, s), a, b) == Outside([x], a, b) + Outside(s, a, b)
    decreases |s|
  {
    assert [x][1..] == [];
    if s == [] || x <= s[0] {
      assert ([x] + s)[1..] == s;
    } else {
      OutsideInsert(x, s[1..], a, b);
      assert Insert(x, s)[1..] == Insert(x, s[1..]);
    }
  }

  lemma {:induction false} OutsideSort(s: seq<real>, a: real, b: real)
    ensures Outside(Sort(s), a, b) == Outside(s, a, b)
    decreases |s|
  {
    if s != [] {
      OutsideSort(s[1..], a, b);
      OutsideInsert(s[0], Sort(s[1..]), a, b);
      assert [s[0]][1..] == [];
    }
  }

  /** A stretch of a sequence that lies outside counts in full. */
  lemma {:induction false} OutsideStretch(s: seq<real>, a: real, b: real, lo: nat, hi: nat)
    requires lo <= hi <= |s| && forall i | lo <= i < hi :: !(a <= s[i] <= b)
    ensures Outside(s, a, b) >= hi - lo
    decreases |s|
  {
    if s != [] {
      var lo' := if lo == 0 then 0 else lo - 1;
      var hi' := if hi == 0 then 0 else hi - 1;
      assert forall i | lo' <= i < hi' :: s[1..][i] == s[i + 1];
      OutsideStretch(s[1..], a, b, lo', hi');
    }
  }

  /** One sorted element that cannot be outside. */
  lemma MiddleInside(sorted: seq<real>, a: real, b: real, k: nat)
    requires Ascending(sorted) && a <= b && k < |sorted|
    requires Outside(sorted, a, b) < k + 1 && Outside(sorted, a, b) < |sorted| - k
    ensures a <= sorted[k] <= b
  {
    if sorted[k] < a {
      OutsideStretch(sorted, a, b, 0, k + 1);
    } else if sorted[k] > b {
      OutsideStretch(sorted, a, b, k, |sorted|);
    }
  }

  /** The median stays in [a, b] whenever more than half of the values do. */
  lemma MedianOfMajority(values: seq<real>, a: real, b: real)
    requires a <= b && 2 * Outside(values, a, b) < |values|
    ensures a <= Median(values) <= b
  {
    var sorted := Sort(values);
    SortAscending(values);
    OutsideSort(values, a, b);
    var middle := |sorted| / 2;
    MiddleInside(sorted, a, b, middle);
    if |sorted| % 2 == 0 {
      MiddleInside(sorted, a, b, middle - 1);
      Halfway(sorted[middle - 1], sorted[middle], a, b);
    }
  }

  lemma Halfway(x: real, y: real, a: real, b: real)
    requires a <= x <= b && a <= y <= b
    ensures a <= (x + y) / 2.0 <= b
  {
  }

  // ----- The non-CPU estimate

  lemma Blend(old': real, observation: real, alpha: real)
    requires 0.0 <= alpha < 1.0
    ensures var e := old' + alpha * (observation - old');
      if old' <= observation then old' <= e <= observation else observation <= e <= old'
  {
    var d := observation - old';
    if d >= 0.0 {
      assert 0.0 <= alpha * d;
      assert alpha * d <= d by {
        assert (1.0 - alpha) * d >= 0.0;
      }
    } else {
      assert alpha * d <= 0.0;
      assert alpha * d >= d by {
        assert (1.0 - alpha) * d <= 0.0;
      }
    }
  }

  /** One update: nonnegative, between the old estimate and the observation, never up while the alignment gate is
      active, and nothing at all on an SMC timestamp already used. */
  lemma NonCpuUpdate(st: State, now: real, gain: Gain)
    requires GainOk(gain) && st.snap.nonCpuW >= 0.0
    ensures var e := NonCpu(st, now, gain); var p, q := st.snap, e.snap;
      && q.nonCpuW >= 0.0
      && (st.lastSmc == st.lastNonCpuSmc ==> e == st)
      && (st.lastSmc != st.lastNonCpuSmc ==>
            && e.lastNonCpuSmc == st.lastSmc && e.nonCpuReady
            && q.rawObservationW == Max(0.0, p.filteredInputW - p.filteredPackageW)
            && (!st.nonCpuReady ==> q.nonCpuW == q.observationW == q.rawObservationW)
            && (st.nonCpuReady ==>
                  if p.nonCpuW <= q.observationW then p.nonCpuW <= q.nonCpuW <= q.observationW
                  else q.observationW <= q.nonCpuW <= p.nonCpuW)
            && (st.nonCpuReady && p.alignedPackageW - p.filteredPackageW >= 5.0 ==>
                q.nonCpuW <= p.nonCpuW))
  {
    var q := NonCpu(st, now, gain).snap;
    var elapsed := if st.lastNonCpu.Some? then Clamp(now - st.lastNonCpu.value, 0.0, 2.0) else 0.0;
    SmoothedBetween(st.snap.nonCpuW, Max(0.0, q.observationW), elapsed, gain);
  }

  lemma SmoothedBetween(estimate: real, observation: real, elapsed: real, gain: Gain)
    requires GainOk(gain) && estimate >= 0.0 && observation >= 0.0
    ensures var e := Smoothed(estimate, observation, elapsed, gain);
      if estimate <= observation then estimate <= e <= observation else observation <= e <= estimate
  {
    var tau := if observation > estimate then RISE_TAU_S else FALL_TAU_S;
    var alpha := if elapsed <= 0.0 then 0.0 else gain(elapsed / tau);
    assert elapsed > 0.0 ==> elapsed / tau > 0.0;
    Blend(estimate, observation, alpha);
  }

  /** Call `c` takes a new non-CPU observation. */
  ghost predicate Reestimates(b: State, c: Call) {
    ReadyAt(b, c) && b.lastSmc != b.lastNonCpuSmc
  }

  ghost predicate Between(v: real, a: real, b: real) {
    a <= v <= b || b <= v <= a
  }

  /** What one call of a run does to the estimate: it moves towards the observation, never up while the alignment gate
      is active, and only where an SMC time is used for the first time. */
  ghost predicate EstimateOk(b: State, e: State, c: Call) {
    if Reestimates(b, c) then
      var o := Observe(b, c.now).snap;
      var raw := Max(0.0, o.filteredInputW - o.filteredPackageW);
      && e.lastNonCpuSmc == b.lastSmc && e.nonCpuReady && e.snap.rawObservationW == raw
      && (if b.nonCpuReady then Between(e.snap.nonCpuW, b.snap.nonCpuW, raw) else e.snap.nonCpuW == raw)
      && (b.nonCpuReady && o.alignedPackageW - o.filteredPackageW >= 5.0 ==>
          e.snap.nonCpuW <= b.snap.nonCpuW)
    else
      e.snap.nonCpuW == b.snap.nonCpuW && e.lastNonCpuSmc == b.lastNonCpuSmc && e.nonCpuReady == b.nonCpuReady
  }

  lemma CallEstimates(b: State, c: Call, gain: Gain)
    requires GainOk(gain) && b.snap.nonCpuW >= 0.0
    ensures var e := Apply(b, c, gain); EstimateOk(b, e, c) && e.snap.nonCpuW >= 0.0
  {
    if ReadyAt(b, c) {
      var o := Observe(b, c.now);
      NonCpuUpdate(o, c.now, gain);
      assert o.lastSmc == b.lastSmc && o.lastNonCpuSmc == b.lastNonCpuSmc && o.nonCpuReady == b.nonCpuReady;
      assert o.snap.nonCpuW == b.snap.nonCpuW;
    }
  }

  /** At every call of every run. */
  lemma {:induction false} RunEstimates(c: Config, calls: seq<Call>, gain: Gain)
    requires GainOk(gain)
    ensures Run(Fresh(c), calls, gain).snap.nonCpuW >= 0.0
    ensures calls != [] ==>
              EstimateOk(Run(Fresh(c), calls[..|calls| - 1], gain), Run(Fresh(c), calls, gain), calls[|calls| - 1])
    decreases |calls|
  {
    if calls != [] {
      var n := |calls| - 1;
      RunEstimates(c, calls[..n], gain);
      CallEstimates(Run(Fresh(c), calls[..n], gain), calls[n], gain);
    }
  }

  /** The SMC time used last is one seen, and neither goes back. */
  ghost predicate SmcSince(st: State, t: Option<real>) {
    t.Some? && st.lastNonCpuSmc.Some? && st.lastSmc.Some? && t.value <= st.lastNonCpuSmc.value <= st.lastSmc.value
  }

  lemma {:induction false} SmcAfter(st: State, calls: seq<Call>, gain: Gain, t: Option<real>)
    requires GainOk(gain) && st.snap.nonCpuW >= 0.0 && SmcSince(st, t)
    ensures SmcSince(Run(st, calls, gain), t) && Run(st, calls, gain).snap.nonCpuW >= 0.0
    decreases |calls|
  {
    if calls != [] {
      var n := |calls| - 1;
      SmcAfter(st, calls[..n], gain, t);
      CallEstimates(Run(st, calls[..n], gain), calls[n], gain);
    }
  }

  lemma FirstUse(b: State, first: Call, gain: Gain)
    requires GainOk(gain) && b.snap.nonCpuW >= 0.0 && Reestimates(b, first)
    ensures SmcSince(Apply(b, first, gain), b.lastSmc) && Apply(b, first, gain).snap.nonCpuW >= 0.0
  {
    CallEstimates(b, first, gain);
    KeepsLastSmc(b, first, gain);
  }

  lemma KeepsLastSmc(b: State, c: Call, gain: Gain)
    requires ReadyAt(b, c)
    ensures Apply(b, c, gain).lastSmc == b.lastSmc && b.lastSmc.Some?
  {
  }

  lemma UsedSince(b: State, first: Call, between: seq<Call>, gain: Gain)
    requires GainOk(gain) && b.snap.nonCpuW >= 0.0 && Reestimates(b, first)
    ensures SmcSince(Run(Apply(b, first, gain), between, gain), b.lastSmc)
  {
    FirstUse(b, first, gain);
    var e := Apply(b, first, gain);
    SmcAfter(e, between, gain, b.lastSmc);
  }

  lemma NextUse(st: State, c: Call, t: Option<real>)
    requires SmcSince(st, t) && Reestimates(st, c)
    ensures t.Some? && st.lastSmc.Some? && t.value < st.lastSmc.value
  {
  }

  /** In every run, two calls that take an observation do so for different SMC times, the later one for a later time. */
  lemma OncePerSmcTime(c: Config, before: seq<Call>, first: Call, between: seq<Call>, second: Call, gain: Gain)
    requires GainOk(gain)
    requires Reestimates(Run(Fresh(c), before, gain), first)
    requires Reestimates(Run(Fresh(c), before + [first] + between, gain), second)
    ensures var t, u := Run(Fresh(c), before, gain).lastSmc, Run(Fresh(c), before + [first] + between, gain).lastSmc;
      t.Some? && u.Some? && t.value < u.value
  {
    RunEstimates(c, before, gain);
    RunInParts(Fresh(c), before, first, between, gain);
    UsedSince(Run(Fresh(c), before, gain), first, between, gain);
    NextUse(Run(Fresh(c), before + [first] + between, gain), second, Run(Fresh(c), before, gain).lastSmc);
  }

  // ----- Limits

  /** What the limits satisfy after every ready evaluation. */
  ghost predicate LimitsOk(st: State) {
    var p, c := st.snap, st.config;
    && c.floorW <= p.pl1W <= c.ceilingPl1W
    && (p.pl1W + p.nonCpuW + c.reserveW <= p.targetW + 0.25 || p.pl1W <= c.floorW + 0.25)
    && (p.band == Emergency ==> p.pl1W <= c.floorW + 0.25)
    && p.pl1W <= p.pl2W && (p.pl2W <= c.ceilingPl2W || p.pl2W == p.pl1W)
  }

  /** A raise is at most one watt and comes at least a second after the previous change. */
  ghost predicate SlowRaise(st: State, e: State, now: real) {
    && (e.snap.pl1W > st.snap.pl1W ==>
          && e.snap.pl1W <= st.snap.pl1W + 1.0 && st.lastIncrease.Some? && now - st.lastIncrease.value >= 1.0)
    && (e.snap.pl1W != st.snap.pl1W ==> e.lastIncrease == Some(now))
  }

  /** PL1 is set for the first time, or moves. */
  ghost predicate Changed(st: State, e: State) {
    e.snap.pl1W != st.snap.pl1W || (e.limitReady && !st.limitReady)
  }

  lemma LimitsUpdate(st: State, now: real)
    requires st.config.Sound() && st.snap.nonCpuW >= 0.0
    requires st.limitReady ==> st.config.floorW <= st.snap.pl1W <= st.config.ceilingPl1W
    ensures var e := UpdateLimits(st, now);
      && LimitsOk(e) && e.limitReady && (st.limitReady ==> SlowRaise(st, e, now))
      && e.lastIncrease == if Changed(st, e) then Some(now) else st.lastIncrease
  {
  }

  /** The invariant of a run. */
  ghost predicate Limited(st: State) {
    st.snap.nonCpuW >= 0.0 && (st.limitReady ==> st.config.floorW <= st.snap.pl1W <= st.config.ceilingPl1W)
  }

  /** One evaluation: if it is ready, the limits respect the floor, the ceiling and the band's budget, an emergency
      condition is answered in the same call, and raises are slow; otherwise no limit moves. */
  lemma EvaluateLimits(st: State, now: real, gain: Gain)
    requires st.config.Sound() && GainOk(gain) && Limited(st)
    ensures var e := Evaluate(st, now, gain);
      && Limited(e) && e.config == st.config
      && (e.snap.ready ==> LimitsOk(e) && (st.limitReady ==> SlowRaise(st, e, now)))
      && (e.snap.ready && EmergencyCondition(Seen(st, now, gain).snap) ==>
            e.snap.band == Emergency && e.snap.pl1W <= st.config.floorW + 0.25)
      && (!e.snap.ready ==> !Changed(st, e))
      && e.lastIncrease == (if Changed(st, e) then Some(now) else st.lastIncrease)
      && (e.snap.ready <==> ReadyAt(st, Evaluation(now)))
  {
    if now >= 0.0 && Observe(st, now).snap.ready {
      var o := Observe(st, now);
      NonCpuUpdate(o, now, gain);
      var b := UpdateBand(Predict(NonCpu(o, now, gain)), now);
      assert b.snap.pl1W == st.snap.pl1W && b.limitReady == st.limitReady && b.config == st.config;
      LimitsUpdate(b, now);
    }
  }

  /** When PL1 last changed in a run. */
  ghost function LastChange(c: Config, calls: seq<Call>, gain: Gain): Option<real>
    decreases |calls|
  {
    if calls == [] then None
    else
      var n := |calls| - 1;
      if Changed(Run(Fresh(c), calls[..n], gain), Run(Fresh(c), calls, gain)) then Some(calls[n].now)
      else LastChange(c, calls[..n], gain)
  }

  /** What one call of a run does to the limits. */
  ghost predicate CallOk(b: State, e: State, call: Call, gain: Gain) {
    if ReadyAt(b, call) then
      && LimitsOk(e) && (b.limitReady ==> SlowRaise(b, e, call.now))
      && (EmergencyCondition(Seen(b, call.now, gain).snap) ==>
            e.snap.band == Emergency && e.snap.pl1W <= b.config.floorW + 0.25)
    else !Changed(b, e)
  }

  lemma CallLimits(b: State, call: Call, gain: Gain)
    requires b.config.Sound() && GainOk(gain) && Limited(b)
    ensures var e := Apply(b, call, gain);
      && Limited(e) && e.config == b.config && CallOk(b, e, call, gain)
      && e.lastIncrease == if Changed(b, e) then Some(call.now) else b.lastIncrease
  {
    if call.Evaluation? {
      EvaluateLimits(b, call.now, gain);
    }
  }

  /** In every run, at its last call: a ready evaluation leaves the limits in order, raises PL1 by at most a watt and at
      least a second after its last change, and answers an emergency condition at once; no other call moves PL1. */
  lemma {:induction false} RunLimited(c: Config, calls: seq<Call>, gain: Gain)
    requires c.Sound() && GainOk(gain)
    ensures var st := Run(Fresh(c), calls, gain);
      Limited(st) && st.config == c && st.lastIncrease == LastChange(c, calls, gain)
    ensures calls != [] ==>
              CallOk(Run(Fresh(c), calls[..|calls| - 1], gain), Run(Fresh(c), calls, gain), calls[|calls| - 1], gain)
    decreases |calls|
  {
    if calls != [] {
      var n := |calls| - 1;
      RunLimited(c, calls[..n], gain);
      CallLimits(Run(Fresh(c), calls[..n], gain), calls[n], gain);
    }
  }
}
