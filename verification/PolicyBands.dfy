/** What moves the policy controller from band to band, over runs: pressure that lasts moves it, and nothing else. */
module PolicyBands {
  import opened Options
  import opened Policy
  import opened PolicyRuns

  /** The five moves that take time: two up and three down. */
  datatype Move = UpToShed | UpToGuard | OutOfEmergency | OutOfShed | OutOfGuard {
    /** What the filtered input must be, for how long, to force the move. */
    predicate Presses(p: Snapshot) {
      match this
      case UpToShed => p.filteredInputW >= p.shedW && p.filteredInputW >= p.guardW
      case UpToGuard => p.filteredInputW >= p.guardW && p.capacityW >= 0.0
      case OutOfEmergency => !EmergencyCondition(p) && p.filteredInputW < p.shedW
      case OutOfShed => !EmergencyCondition(p) && p.filteredInputW < p.shedW && p.filteredInputW < p.guardW
      case OutOfGuard =>
        && !EmergencyCondition(p) && p.filteredInputW < p.shedW && p.filteredInputW < p.guardW
        && p.filteredInputW < p.guardW - 0.03 * p.capacityW
    }

    function Seconds(): real {
      match this
      case UpToShed => 1.0
      case UpToGuard => 2.0
      case OutOfEmergency => 5.0
      case OutOfShed => 10.0
      case OutOfGuard => 15.0
    }

    function Timer(t: Timers): Option<real> {
      match this
      case UpToShed => t.shedHigh
      case UpToGuard => t.guardHigh
      case OutOfEmergency => t.belowShed
      case OutOfShed => t.belowGuard
      case OutOfGuard => t.belowCruise
    }

    /** The bands the move starts from. */
    predicate Pending(b: Band) {
      match this
      case UpToShed => b in {Cruise, Guard}
      case UpToGuard => b == Cruise
      case OutOfEmergency => b == Emergency
      case OutOfShed => b == Shed
      case OutOfGuard => b == Guard
    }

    /** The bands on its far side. */
    predicate Done(b: Band) {
      match this
      case UpToShed => b in {Shed, Emergency}
      case UpToGuard => b != Cruise
      case OutOfEmergency => b != Emergency
      case OutOfShed => b in {Cruise, Guard}
      case OutOfGuard => b == Cruise
    }
  }

  /** Done, or on the way since `since`. */
  ghost predicate UnderWay(x: Move, band: Band, t: Timers, since: real) {
    x.Done(band) || (x.Pending(band) && x.Timer(t).Some? && x.Timer(t).value <= since)
  }

  /** One ready evaluation under pressure starts the move, keeps it going, and completes it when it is time. */
  lemma PressedStep(x: Move, p: Snapshot, t: Timers, now: real, since: real)
    requires TimersMatchBand(p.band, t) && x.Presses(p)
    ensures var (band, u) := NextBand(p, t, now);
      && ((x.Done(p.band) || x.Pending(p.band)) && (x.Timer(t).Some? ==> x.Timer(t).value <= now) ==>
            UnderWay(x, band, u, now))
      && (UnderWay(x, p.band, t, since) ==> UnderWay(x, band, u, since))
      && (UnderWay(x, p.band, t, since) && now - since >= x.Seconds() ==> x.Done(band))
  {
    match x {
      case UpToShed =>
      case UpToGuard =>
      case OutOfEmergency =>
      case OutOfShed =>
      case OutOfGuard =>
    }
  }

  /** If call `j` is a ready evaluation, it is under pressure. */
  ghost predicate PressedAt(x: Move, st: State, calls: seq<Call>, gain: Gain, j: nat)
    requires j < |calls|
  {
    var b := Run(st, calls[..j], gain);
    ReadyAt(b, calls[j]) ==> x.Presses(Seen(b, calls[j].now, gain).snap)
  }

  lemma PressedAtPrefix(x: Move, st: State, calls: seq<Call>, gain: Gain, j: nat)
    requires j < |calls| - 1 && PressedAt(x, st, calls, gain, j)
    ensures PressedAt(x, st, calls[..|calls| - 1], gain, j)
  {
    assert calls[..|calls| - 1][..j] == calls[..j];
  }

  lemma PressedCall(x: Move, b: State, c: Call, gain: Gain, since: real)
    requires TimersMatchBand(b.snap.band, b.timers) && UnderWay(x, b.snap.band, b.timers, since)
    requires ReadyAt(b, c) ==> x.Presses(Seen(b, c.now, gain).snap)
    ensures var e := Apply(b, c, gain);
      && TimersMatchBand(e.snap.band, e.timers) && UnderWay(x, e.snap.band, e.timers, since)
      && (ReadyAt(b, c) && c.now - since >= x.Seconds() ==> x.Done(e.snap.band))
  {
    BandOfEvaluation(b, c, gain);
    if ReadyAt(b, c) {
      var p := Seen(b, c.now, gain).snap;
      BandStep(p, b.timers, c.now);
      PressedStep(x, p, b.timers, c.now, since);
    }
  }

  /** A move under way stays so while the pressure lasts, and is done when a ready evaluation comes at its time. */
  lemma {:induction false} PressureRun(x: Move, st: State, calls: seq<Call>, gain: Gain, since: real)
    requires TimersMatchBand(st.snap.band, st.timers) && UnderWay(x, st.snap.band, st.timers, since)
    requires forall j: nat | j < |calls| :: PressedAt(x, st, calls, gain, j)
    ensures var e := Run(st, calls, gain);
      && TimersMatchBand(e.snap.band, e.timers) && UnderWay(x, e.snap.band, e.timers, since)
    ensures calls != [] && ReadyAt(Run(st, calls[..|calls| - 1], gain), calls[|calls| - 1]) ==>
              calls[|calls| - 1].now - since >= x.Seconds() ==> x.Done(Run(st, calls, gain).snap.band)
    decreases |calls|
  {
    if calls != [] {
      var n := |calls| - 1;
      forall j: nat | j < n
        ensures PressedAt(x, st, calls[..n], gain, j)
      {
        PressedAtPrefix(x, st, calls, gain, j);
      }
      PressureRun(x, st, calls[..n], gain, since);
      assert PressedAt(x, st, calls, gain, n);
      PressedCall(x, Run(st, calls[..n], gain), calls[n], gain, since);
    }
  }

  // ----- Timers are not ahead of the clock

  ghost predicate TimersPast(t: Timers, now: real) {
    forall x: Move :: x.Timer(t).Some? ==> x.Timer(t).value <= now
  }

  lemma TimersPastStep(p: Snapshot, t: Timers, now: real)
    requires TimersPast(t, now)
    ensures TimersPast(NextBand(p, t, now).1, now)
  {
    var u := NextBand(p, t, now).1;
    forall x: Move
      ensures x.Timer(u).Some? ==> x.Timer(u).value <= now
    {
      assert x.Timer(t).Some? ==> x.Timer(t).value <= now;
      assert x.Timer(u) in {None, Some(now), x.Timer(t)};
    }
  }

  lemma {:induction false} RunTimersPast(c: Config, calls: seq<Call>, gain: Gain, now: real)
    requires Ordered(calls) && forall i | 0 <= i < |calls| :: calls[i].now <= now
    ensures TimersPast(Run(Fresh(c), calls, gain).timers, now)
    decreases |calls|
  {
    if calls != [] {
      var n := |calls| - 1;
      OrderedPrefix(calls);
      RunTimersPast(c, calls[..n], gain, calls[n].now);
      BandOfEvaluation(Run(Fresh(c), calls[..n], gain), calls[n], gain);
      TimersPastStep(Seen(Run(Fresh(c), calls[..n], gain), calls[n].now, gain).snap,
                     Run(Fresh(c), calls[..n], gain).timers, calls[n].now);
      forall x: Move
        ensures var t := Run(Fresh(c), calls, gain).timers; x.Timer(t).Some? ==> x.Timer(t).value <= now
      {
      }
    }
  }

  // ----- Pressure that lasts moves it

  lemma FirstPress(x: Move, b: State, c: Call, gain: Gain)
    requires TimersMatchBand(b.snap.band, b.timers) && TimersPast(b.timers, c.now)
    requires x.Pending(b.snap.band) || x.Done(b.snap.band)
    requires ReadyAt(b, c) && x.Presses(Seen(b, c.now, gain).snap)
    ensures var e := Apply(b, c, gain);
      TimersMatchBand(e.snap.band, e.timers) && UnderWay(x, e.snap.band, e.timers, c.now)
  {
    BandOfEvaluation(b, c, gain);
    var p := Seen(b, c.now, gain).snap;
    BandStep(p, b.timers, c.now);
    assert x.Timer(b.timers).Some? ==> x.Timer(b.timers).value <= c.now;
    PressedStep(x, p, b.timers, c.now, c.now);
  }

  /** In every run: from a ready evaluation under pressure on, if every ready evaluation is, and one comes at least the
      time of the move later, the move is done. At or above the shed threshold for a second the controller is in Shed or
      above; at or above the guard threshold for two seconds it is out of Cruise; below the shed threshold for five
      seconds without an emergency it is out of Emergency; and so on down. */
  lemma PressureMoves(
    x: Move, c: Config, before: seq<Call>, first: Call, after: seq<Call>, last: Call, gain: Gain)
    requires Ordered(before) && (forall i | 0 <= i < |before| :: before[i].now <= first.now)
    requires var b := Run(Fresh(c), before, gain);
      && (x.Pending(b.snap.band) || x.Done(b.snap.band))
      && ReadyAt(b, first) && x.Presses(Seen(b, first.now, gain).snap)
    requires var d := Apply(Run(Fresh(c), before, gain), first, gain);
      && (forall j: nat | j < |after| + 1 :: PressedAt(x, d, after + [last], gain, j))
      && ReadyAt(Run(d, after, gain), last) && last.now - first.now >= x.Seconds()
    ensures x.Done(Run(Fresh(c), before + [first] + (after + [last]), gain).snap.band)
  {
    var b := Run(Fresh(c), before, gain);
    RunTimersMatchBand(c, before, gain);
    RunTimersPast(c, before, gain, first.now);
    FirstPress(x, b, first, gain);
    var rest := after + [last];
    assert rest[..|rest| - 1] == after;
    PressureRun(x, Apply(b, first, gain), rest, gain, first.now);
    RunInParts(Fresh(c), before, first, rest, gain);
  }

  // ----- Nothing else moves it up

  /** The two thresholds whose timers lead up. */
  datatype High = GuardHigh | ShedHigh {
    function Timer(t: Timers): Option<real> { if GuardHigh? then t.guardHigh else t.shedHigh }
    function Seconds(): real { if GuardHigh? then 2.0 else 1.0 }
    predicate Over(p: Snapshot) { p.filteredInputW >= if GuardHigh? then p.guardW else p.shedW }
  }

  /** If call `j` is a ready evaluation without an emergency, its filtered input is at or above the threshold. */
  ghost predicate OverAt(h: High, st: State, calls: seq<Call>, gain: Gain, j: nat)
    requires j < |calls|
  {
    var b := Run(st, calls[..j], gain);
    ReadyAt(b, calls[j]) ==>
      var p := Seen(b, calls[j].now, gain).snap;
      EmergencyCondition(p) || h.Over(p)
  }

  lemma OverAtPrefix(h: High, st: State, calls: seq<Call>, gain: Gain, j: nat)
    requires j < |calls| - 1 && OverAt(h, st, calls[..|calls| - 1], gain, j)
    ensures OverAt(h, st, calls, gain, j)
  {
    assert calls[..|calls| - 1][..j] == calls[..j];
  }

  ghost predicate OverSince(h: High, st: State, calls: seq<Call>, gain: Gain, k: nat) {
    forall j: nat | k <= j < |calls| :: OverAt(h, st, calls, gain, j)
  }

  lemma OverSinceOn(h: High, st: State, calls: seq<Call>, gain: Gain, k: nat)
    requires calls != [] && OverAt(h, st, calls, gain, |calls| - 1)
    requires k < |calls| - 1 ==> OverSince(h, st, calls[..|calls| - 1], gain, k)
    ensures OverSince(h, st, calls, gain, k)
  {
    forall j: nat | k <= j < |calls| - 1
      ensures OverAt(h, st, calls, gain, j)
    {
      OverAtPrefix(h, st, calls, gain, j);
    }
  }

  lemma HighStep(h: High, p: Snapshot, t: Timers, now: real)
    ensures var (band, u) := NextBand(p, t, now);
      && (h.Timer(u).Some? ==> EmergencyCondition(p) || h.Over(p))
      && (h.Timer(u).Some? ==> h.Timer(u) == h.Timer(t) || (h.Timer(u) == Some(now) && !EmergencyCondition(p)))
      && (!EmergencyCondition(p) && band.Rank() > p.band.Rank() ==>
            var which := if band == Shed then ShedHigh else GuardHigh;
            && band in {Guard, Shed}
            && which.Over(p) && (which.Timer(t).Some? ==> now - which.Timer(t).value >= which.Seconds())
            && which.Timer(t).Some?)
  {
  }

  lemma HighCall(h: High, b: State, c: Call, gain: Gain)
    ensures var e := Apply(b, c, gain);
      && (ReadyAt(b, c) && h.Timer(e.timers).Some? ==>
            var p := Seen(b, c.now, gain).snap; EmergencyCondition(p) || h.Over(p))
      && (h.Timer(e.timers).Some? ==>
            h.Timer(e.timers) == h.Timer(b.timers) || (h.Timer(e.timers) == Some(c.now) && ReadyAt(b, c)))
  {
    BandOfEvaluation(b, c, gain);
    if ReadyAt(b, c) {
      HighStep(h, Seen(b, c.now, gain).snap, b.timers, c.now);
    }
  }

  /** A running timer goes back to an evaluation at that very time, and at every ready evaluation since, an emergency
      aside, the filtered input was at or above the threshold. */
  lemma {:induction false} HighHasStart(h: High, c: Config, calls: seq<Call>, gain: Gain) returns (k: nat)
    requires h.Timer(Run(Fresh(c), calls, gain).timers).Some?
    ensures k < |calls| && h.Timer(Run(Fresh(c), calls, gain).timers) == Some(calls[k].now)
    ensures OverSince(h, Fresh(c), calls, gain, k)
    decreases |calls|
  {
    k := 0;
    if calls != [] {
      var n := |calls| - 1;
      var b, e := Run(Fresh(c), calls[..n], gain), Run(Fresh(c), calls, gain);
      HighCall(h, b, calls[n], gain);
      if h.Timer(e.timers) == h.Timer(b.timers) {
        k := HighHasStart(h, c, calls[..n], gain);
      } else {
        k := n;
      }
      OverSinceOn(h, Fresh(c), calls, gain, k);
    }
  }

  /** Call `c` moves the controller up although it finds no emergency. */
  ghost predicate EscalatesAt(b: State, c: Call, gain: Gain) {
    && Apply(b, c, gain).snap.band.Rank() > b.snap.band.Rank()
    && !(ReadyAt(b, c) && EmergencyCondition(Seen(b, c.now, gain).snap))
  }

  lemma EscalationCall(b: State, c: Call, gain: Gain)
    requires EscalatesAt(b, c, gain)
    ensures var band := Apply(b, c, gain).snap.band; var h := if band == Shed then ShedHigh else GuardHigh;
      && ReadyAt(b, c) && band in {Guard, Shed} && h.Over(Seen(b, c.now, gain).snap)
      && h.Timer(b.timers).Some? && c.now - h.Timer(b.timers).value >= h.Seconds()
  {
    BandOfEvaluation(b, c, gain);
    if ReadyAt(b, c) {
      HighStep(GuardHigh, Seen(b, c.now, gain).snap, b.timers, c.now);
    }
  }

  /** Whenever a call moves the controller up without an emergency, it goes to Guard or Shed, and the filtered input was
      at or above that threshold at every ready evaluation without an emergency from one at least two seconds, or one
      second, back. */
  lemma EscalationTakesDwell(c: Config, calls: seq<Call>, gain: Gain) returns (k: nat)
    requires calls != [] && EscalatesAt(Run(Fresh(c), calls[..|calls| - 1], gain), calls[|calls| - 1], gain)
    ensures var n, band := |calls| - 1, Run(Fresh(c), calls, gain).snap.band;
      var h := if band == Shed then ShedHigh else GuardHigh;
      && band in {Guard, Shed} && k < n && calls[n].now - calls[k].now >= h.Seconds()
      && OverSince(h, Fresh(c), calls, gain, k)
  {
    var n := |calls| - 1;
    var b := Run(Fresh(c), calls[..n], gain);
    EscalationCall(b, calls[n], gain);
    var h := if Run(Fresh(c), calls, gain).snap.band == Shed then ShedHigh else GuardHigh;
    k := HighHasStart(h, c, calls[..n], gain);
    OverSinceOn(h, Fresh(c), calls, gain, k);
  }
}
