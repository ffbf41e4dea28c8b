/** What the policy controller guarantees over whole runs of samples and evaluations. */
module PolicyRuns {
  import opened Options
  import opened Policy

  datatype Call =
    | Smc(now: real, inputW: real, capacityW: real)
    | Package(now: real, packageW: real)
    | Evaluation(now: real)

  function Apply(st: State, c: Call, gain: Gain): State {
    match c
    case Smc(now, inputW, capacityW) => UpdateSmc(st, now, inputW, capacityW)
    case Package(now, packageW) => UpdatePackage(st, now, packageW)
    case Evaluation(now) => Evaluate(st, now, gain)
  }

  function Run(st: State, calls: seq<Call>, gain: Gain): State
    decreases |calls|
  {
    if calls == [] then st else Apply(Run(st, calls[..|calls| - 1], gain), calls[|calls| - 1], gain)
  }

  /** One clock, which never goes back. */
  ghost predicate Ordered(calls: seq<Call>) {
    forall i, j | 0 <= i < j < |calls| :: calls[i].now <= calls[j].now
  }

  lemma OrderedPrefix(calls: seq<Call>)
    requires Ordered(calls) && calls != []
    ensures Ordered(calls[..|calls| - 1])
    ensures forall i | 0 <= i < |calls| :: calls[i].now <= calls[|calls| - 1].now
  {
  }

  // ----- What a ready evaluation is made of

  /** The snapshot the band decision sees. */
  ghost function Seen(st: State, now: real, gain: Gain): State {
    Predict(NonCpu(Observe(st, now), now, gain))
  }

  ghost predicate ReadyAt(st: State, c: Call) {
    c.Evaluation? && c.now >= 0.0 && Observe(st, c.now).snap.ready
  }

  lemma BandOfEvaluation(st: State, c: Call, gain: Gain)
    ensures var e := Apply(st, c, gain);
      if ReadyAt(st, c) then
        && (e.snap.band, e.timers) == NextBand(Seen(st, c.now, gain).snap, st.timers, c.now)
        && Seen(st, c.now, gain).snap.band == st.snap.band
        && e.snap.filteredInputW == Seen(st, c.now, gain).snap.filteredInputW
        && e.snap.guardW == Seen(st, c.now, gain).snap.guardW && e.snap.shedW == Seen(st, c.now, gain).snap.shedW
        && e.snap.capacityW == Seen(st, c.now, gain).snap.capacityW
      else e.snap.band == st.snap.band && e.timers == st.timers
  {
  }

  // ----- Bands

  /** Each recovery timer runs only in its own band. */
  ghost predicate TimersMatchBand(band: Band, t: Timers) {
    && (t.belowShed.Some? ==> band == Emergency) && (t.belowGuard.Some? ==> band == Shed)
    && (t.belowCruise.Some? ==> band == Guard)
  }

  /** A recovery goes down one band at a time, and an emergency condition reaches the top band at once. */
  lemma BandStep(p: Snapshot, t: Timers, now: real)
    requires TimersMatchBand(p.band, t)
    ensures var (band, u) := NextBand(p, t, now);
      && TimersMatchBand(band, u) && p.band.Rank() <= band.Rank() + 1
      && (EmergencyCondition(p) ==> band == Emergency && u.belowShed.None?)
  {
  }

  lemma {:induction false} RunTimersMatchBand(c: Config, calls: seq<Call>, gain: Gain)
    ensures var e := Run(Fresh(c), calls, gain); TimersMatchBand(e.snap.band, e.timers)
  {
    if calls != [] {
      var n := |calls| - 1;
      var b := Run(Fresh(c), calls[..n], gain);
      RunTimersMatchBand(c, calls[..n], gain);
      BandOfEvaluation(b, calls[n], gain);
      BandStep(Seen(b, calls[n].now, gain).snap, b.timers, calls[n].now);
    }
  }

  /** Time is at least `now`; the last emergency condition was at `t`. Each band on the way down has its own earliest
      time, and so does the timer that leads out of it. */
  ghost predicate Cooling(band: Band, u: Timers, t: real, now: real) {
    match band
    case Emergency => t <= now && (u.belowShed.Some? ==> u.belowShed.value >= t)
    case Shed => t + 5.0 <= now && (u.belowGuard.Some? ==> u.belowGuard.value >= t + 5.0)
    case Guard => t + 15.0 <= now && (u.belowCruise.Some? ==> u.belowCruise.value >= t + 15.0)
    case Cruise => t + 30.0 <= now
  }

  lemma CoolingStep(p: Snapshot, u: Timers, t: real, before: real, now: real)
    requires TimersMatchBand(p.band, u) && Cooling(p.band, u, t, before) && before <= now
    ensures var (band, v) := NextBand(p, u, now); Cooling(band, v, t, now)
  {
  }

  /** From any state right after an emergency condition at time t, however the run goes on: the controller is not back
      in Cruise before t + 30, in Guard before t + 15, or in Shed before t + 5. */
  lemma {:induction false} ThirtySecondsToCruise(st: State, calls: seq<Call>, gain: Gain, t: real, now: real)
    requires st.snap.band == Emergency && TimersMatchBand(Emergency, st.timers) && st.timers.belowShed.None?
    requires Ordered(calls) && t <= now && forall i | 0 <= i < |calls| :: t <= calls[i].now <= now
    ensures var e := Run(st, calls, gain);
      TimersMatchBand(e.snap.band, e.timers) && Cooling(e.snap.band, e.timers, t, now)
    decreases |calls|
  {
    if calls != [] {
      var n := |calls| - 1;
      var c := calls[n];
      var b := Run(st, calls[..n], gain);
      OrderedPrefix(calls);
      ThirtySecondsToCruise(st, calls[..n], gain, t, c.now);
      BandOfEvaluation(b, c, gain);
      BandStep(Seen(b, c.now, gain).snap, b.timers, c.now);
      CoolingStep(Seen(b, c.now, gain).snap, b.timers, t, c.now, c.now);
      assert Cooling(Run(st, calls, gain).snap.band, Run(st, calls, gain).timers, t, c.now);
    }
  }

  lemma {:induction false} RunSplit(st: State, a: seq<Call>, b: seq<Call>, gain: Gain)
    ensures Run(st, a + b, gain) == Run(Run(st, a, gain), b, gain)
    decreases |b|
  {
    if b == [] {
      assert a + b == a;
    } else {
      var n := |b| - 1;
      assert (a + b)[..|a| + n] == a + b[..n] && (a + b)[|a| + n] == b[n];
      RunSplit(st, a, b[..n], gain);
    }
  }

  lemma RunOneMore(st: State, calls: seq<Call>, c: Call, gain: Gain)
    ensures Run(st, calls + [c], gain) == Apply(Run(st, calls, gain), c, gain)
  {
    assert (calls + [c])[..|calls|] == calls;
  }

  /** Call `c` is a ready evaluation that sees an emergency condition. */
  ghost predicate EmergencyAt(b: State, c: Call, gain: Gain) {
    ReadyAt(b, c) && EmergencyCondition(Seen(b, c.now, gain).snap)
  }

  /** Right after it the controller is in Emergency, with no recovery under way. */
  lemma EmergencyState(b: State, c: Call, gain: Gain)
    requires TimersMatchBand(b.snap.band, b.timers) && EmergencyAt(b, c, gain)
    ensures var e := Apply(b, c, gain);
      e.snap.band == Emergency && TimersMatchBand(Emergency, e.timers) && e.timers.belowShed.None?
  {
    BandOfEvaluation(b, c, gain);
    BandStep(Seen(b, c.now, gain).snap, b.timers, c.now);
  }

  /** A run from the start, in three parts. */
  lemma RunInParts(st: State, before: seq<Call>, c: Call, after: seq<Call>, gain: Gain)
    ensures Run(st, before + [c] + after, gain) == Run(Apply(Run(st, before, gain), c, gain), after, gain)
  {
    RunSplit(st, before + [c], after, gain);
    RunOneMore(st, before, c, gain);
  }

  /** In every run, an emergency condition at a ready evaluation keeps the controller out of Shed for 5 s, out of Guard
      for 15 s and out of Cruise for 30 s, whatever came before and comes after. */
  lemma {:induction false} EmergencyCools(
    config: Config, before: seq<Call>, c: Call, after: seq<Call>, gain: Gain, now: real)
    requires EmergencyAt(Run(Fresh(config), before, gain), c, gain)
    requires Ordered(after) && c.now <= now && forall i | 0 <= i < |after| :: c.now <= after[i].now <= now
    ensures var e := Run(Fresh(config), before + [c] + after, gain); Cooling(e.snap.band, e.timers, c.now, now)
  {
    RunTimersMatchBand(config, before, gain);
    EmergencyState(Run(Fresh(config), before, gain), c, gain);
    ThirtySecondsToCruise(Apply(Run(Fresh(config), before, gain), c, gain), after, gain, c.now, now);
    RunInParts(Fresh(config), before, c, after, gain);
  }

  // ----- Dwells

  /** The three recoveries: the band left, the timer, how long it must run, and the condition that keeps it running. */
  datatype Dwell = LeaveEmergency | LeaveShed | LeaveGuard {
    function From(): Band {
      match this
      case LeaveEmergency => Emergency
      case LeaveShed => Shed
      case LeaveGuard => Guard
    }

    function To(): Band {
      match this
      case LeaveEmergency => Shed
      case LeaveShed => Guard
      case LeaveGuard => Cruise
    }

    function Seconds(): real {
      match this
      case LeaveEmergency => 5.0
      case LeaveShed => 10.0
      case LeaveGuard => 15.0
    }

    function Timer(t: Timers): Option<real> {
      match this
      case LeaveEmergency => t.belowShed
      case LeaveShed => t.belowGuard
      case LeaveGuard => t.belowCruise
    }

    predicate Calm(p: Snapshot) {
      match this
      case LeaveEmergency => p.filteredInputW < p.shedW
      case LeaveShed => p.filteredInputW < p.guardW
      case LeaveGuard => p.filteredInputW < p.guardW - 0.03 * p.capacityW
    }
  }

  /** A running timer was started by this evaluation or before it, and the evaluation was calm. */
  lemma DwellStep(d: Dwell, p: Snapshot, t: Timers, now: real)
    requires TimersMatchBand(p.band, t)
    ensures var (band, u) := NextBand(p, t, now);
      && (d.Timer(u).Some? ==> d.Calm(p) && (d.Timer(u) == d.Timer(t) || d.Timer(u) == Some(now)))
      && (p.band == d.From() && band == d.To() ==>
            d.Calm(p) && d.Timer(t).Some? && now - d.Timer(t).value >= d.Seconds())
  {
  }

  /** Every ready evaluation from the k-th call on was calm. */
  ghost predicate CalmSince(d: Dwell, st: State, calls: seq<Call>, gain: Gain, k: nat) {
    forall j: nat | k <= j < |calls| :: CalmAt(d, st, calls, gain, j)
  }

  /** If call `j` is a ready evaluation, it finds the condition of the dwell true. */
  ghost predicate CalmAt(d: Dwell, st: State, calls: seq<Call>, gain: Gain, j: nat)
    requires j < |calls|
  {
    ReadyAt(Run(st, calls[..j], gain), calls[j]) ==> d.Calm(Run(st, calls[..j + 1], gain).snap)
  }

  lemma CalmAtPrefix(d: Dwell, st: State, calls: seq<Call>, gain: Gain, n: nat, j: nat)
    requires j < n <= |calls|
    ensures CalmAt(d, st, calls[..n], gain, j) <==> CalmAt(d, st, calls, gain, j)
  {
    assert calls[..n][..j] == calls[..j] && calls[..n][..j + 1] == calls[..j + 1] && calls[..n][j] == calls[j];
  }

  lemma CalmAtLast(d: Dwell, st: State, calls: seq<Call>, gain: Gain)
    requires calls != []
    requires var n := |calls| - 1; ReadyAt(Run(st, calls[..n], gain), calls[n]) ==> d.Calm(Run(st, calls, gain).snap)
    ensures CalmAt(d, st, calls, gain, |calls| - 1)
  {
    assert calls[..|calls|] == calls;
  }

  lemma CalmExtends(d: Dwell, st: State, calls: seq<Call>, gain: Gain, k: nat)
    requires calls != [] && k < |calls|
    requires k < |calls| - 1 ==> CalmSince(d, st, calls[..|calls| - 1], gain, k)
    requires var n := |calls| - 1; ReadyAt(Run(st, calls[..n], gain), calls[n]) ==> d.Calm(Run(st, calls, gain).snap)
    ensures CalmSince(d, st, calls, gain, k)
  {
    CalmAtLast(d, st, calls, gain);
    forall j: nat | k <= j < |calls| - 1
      ensures CalmAt(d, st, calls, gain, j)
    {
      CalmAtPrefix(d, st, calls, gain, |calls| - 1, j);
    }
  }

  /** One call: a running timer is the old one or starts with this call, and a ready call that leaves it running is
      calm. */
  lemma DwellCall(d: Dwell, b: State, c: Call, gain: Gain)
    requires TimersMatchBand(b.snap.band, b.timers)
    ensures var e := Apply(b, c, gain);
      d.Timer(e.timers).Some? ==>
        && (d.Timer(e.timers) == d.Timer(b.timers) || (c.Evaluation? && d.Timer(e.timers) == Some(c.now)))
        && (ReadyAt(b, c) ==> d.Calm(e.snap))
  {
    BandOfEvaluation(b, c, gain);
    DwellStep(d, Seen(b, c.now, gain).snap, b.timers, c.now);
  }

  /** A running recovery timer goes back to a ready evaluation at that very time, with every ready evaluation since
      then calm. */
  lemma {:induction false} DwellHasStart(d: Dwell, c: Config, calls: seq<Call>, gain: Gain) returns (k: nat)
    requires d.Timer(Run(Fresh(c), calls, gain).timers).Some?
    ensures k < |calls| && calls[k].Evaluation? && d.Timer(Run(Fresh(c), calls, gain).timers) == Some(calls[k].now)
    ensures CalmSince(d, Fresh(c), calls, gain, k)
    decreases |calls|
  {
    k := 0;
    if calls != [] {
      var n := |calls| - 1;
      var b, e := Run(Fresh(c), calls[..n], gain), Run(Fresh(c), calls, gain);
      RunTimersMatchBand(c, calls[..n], gain);
      DwellCall(d, b, calls[n], gain);
      if d.Timer(e.timers) == d.Timer(b.timers) {
        k := DwellHasStart(d, c, calls[..n], gain);
      } else {
        k := n;
      }
      CalmExtends(d, Fresh(c), calls, gain, k);
    }
  }

  /** Whenever an evaluation moves one band down, some earlier evaluation lies at least the dwell time back, and at
      every ready evaluation since then, this one included, the filtered input satisfied the matching condition. */
  lemma RecoveryTakesDwell(d: Dwell, c: Config, calls: seq<Call>, gain: Gain) returns (k: nat)
    requires calls != []
    requires Run(Fresh(c), calls[..|calls| - 1], gain).snap.band == d.From()
    requires Run(Fresh(c), calls, gain).snap.band == d.To()
    ensures k < |calls| - 1 && calls[|calls| - 1].now - calls[k].now >= d.Seconds()
    ensures CalmSince(d, Fresh(c), calls, gain, k)
  {
    var n := |calls| - 1;
    var b := Run(Fresh(c), calls[..n], gain);
    RunTimersMatchBand(c, calls[..n], gain);
    BandOfEvaluation(b, calls[n], gain);
    DwellStep(d, Seen(b, calls[n].now, gain).snap, b.timers, calls[n].now);
    k := DwellHasStart(d, c, calls[..n], gain);
    CalmExtends(d, Fresh(c), calls, gain, k);
  }
}
