/** The kernel extension: its locked sections, one method each, over hardware that may lose any write.

    `Stable` holds throughout a locked section; `Valid` is what every section leaves behind when it drops the lock. */
module Driver {
  import opened RaplCodec
  import opened HwpCodec
  import opened Hardware

  const POLL_NS := 250_000_000
  const PASSIVE_POLL_NS := 1_000_000_000
  const TIMEOUT_MS := 5000

  datatype State = Passive | Armed | Failsafe
  datatype Reason = Requested | ClientClosed | Watchdog | ReadbackMismatch | InvalidRequest
  datatype Status = Success | Unsupported | Busy | BadArgument | NotPermitted | NotOpen | Error
  datatype Timer = Idle | Due(at: nat)

  datatype CommandRequest = CommandRequest(wellFormed: bool, sequence: nat)

  datatype Command =
    | ArmCommand(request: LimitRequest)
    | UpdateCommand(request: LimitRequest)
    | DisarmCommand(disarm: CommandRequest)
    | MalformedCommand
    | Disconnect
    | StatusCommand

  predicate ValidLimitRequest(r: LimitRequest, lastSequence: nat, floor: nat, ceiling1: nat, ceiling2: nat) {
    && r.wellFormed && r.timeoutMs == TIMEOUT_MS && r.mode != ModeInvalid && r.sequence > lastSequence
    && floor <= r.pl1Mw <= r.pl2Mw
    && ceiling1 > 0 && ceiling2 > 0 && r.pl1Mw <= ceiling1 && r.pl2Mw <= ceiling2
  }

  function MinimumNonZero(a: nat, b: nat): nat {
    if a == 0 then b else if b == 0 then a else if a < b then a else b
  }

  predicate WatchdogExpired(elapsedNs: nat, timeoutMs: nat) {
    elapsedNs >= timeoutMs * 1_000_000
  }

  /** A heartbeat at `beat` has not timed out at `now`. */
  predicate Young(beat: nat, now: nat) {
    beat <= now && !WatchdogExpired(now - beat, TIMEOUT_MS)
  }

  ghost predicate Prefix(present: seq<bool>, n: nat) {
    n <= |present| && forall c | 0 <= c < |present| :: present[c] <==> c < n
  }

  /** A capture of every CPU's request, and package control only where the package can be written. */
  ghost predicate CaptureHolds(p: Platform, requests: seq<Request>, present: seq<bool>) {
    && |requests| == |present| == MAX_CPUS && Prefix(present, p.cpus)
    && (forall c | 0 <= c < MAX_CPUS && present[c] && requests[c].packageControl :: p.packageSupported)
  }

  /** The registers differ from the saved ones only in what the session may change, and the captured HWP state is the
      saved one. */
  ghost predicate SessionHolds(
    p: Platform, regs: Registers, saved: Registers,
    ours: bool, captured: bool, requests: seq<Request>, present: seq<bool>, package: Request)
  {
    && 1 <= p.cpus <= MAX_CPUS && |regs.control| == |saved.control| == |saved.requests| == p.cpus
    && saved.limit.pl1 <= p.boot.pl1 && saved.limit.pl2 <= p.boot.pl2 && saved.limit.SameWindows(p.boot)
    && !saved.limit.locked && !regs.limit.locked && saved.Guarded()
    && (forall c | 0 <= c < p.cpus :: regs.control[c].rest == saved.control[c].rest)
    && (regs.package == saved.package || (!ours && captured && p.packageSupported))
    && (!ours ==> regs.hwpOn == saved.hwpOn)
    && (!ours && !captured ==> regs.requests == saved.requests)
    && (!ours && captured ==>
          && CaptureHolds(p, requests, present)
          && (forall c | 0 <= c < p.cpus :: requests[c] == saved.requests[c])
          && (p.packageSupported ==> package == saved.package))
  }

  /** The registers are the saved ones; an HWP the driver turned on stays on, in its fail-safe. */
  ghost predicate RestoredTo(saved: Registers, regs: Registers, ours: bool, p: Platform) {
    && regs == saved.(hwpOn := regs.hwpOn, requests := regs.requests)
    && if ours then regs.hwpOn && forall c | 0 <= c < |regs.requests| :: regs.requests[c] == p.FailSafe()
       else regs == saved
  }

  /** The driver's bookkeeping of HWP. */
  datatype HwpBook = HwpBook(
    capabilities: Capabilities, mode: HwpMode, on: bool, captured: bool, overrideActive: bool,
    ours: bool,                // hwpEnabledByTurboMac_: only a reset undoes it
    failSafeActive: bool, failSafe: Request,
    requests: seq<Request>, present: seq<bool>, expected: seq<Request>,   // per CPU: captured, and to be read back
    package: Request, expectedPackage: Request)

  class Driver {
    const m: Machine

    var supported: bool
    var captured: bool
    var state: State
    var capabilityMaximumMw: nat
    var ceilingPl1Mw: nat
    var ceilingPl2Mw: nat
    var watchdogTimeoutMs: nat
    var capturedLimit: PowerLimit
    var expectedLimit: PowerLimit
    var logicalCpus: nat

    var hwp: HwpBook

    var lastSequence: nat
    var lastHeartbeat: nat
    var timer: Timer

    ghost var saved: Registers        // the registers when the current arm captured them
    ghost var accepted: seq<nat>      // every sequence number accepted so far

    /** `init` */
    constructor (m: Machine)
      requires m.Shaped() && m.Chronicled() && m.log == [] && m.regs.limit == m.p.boot
      ensures this.m == m && Stable() && Settled() && state == Passive && accepted == []
      ensures !captured && !hwp.captured && !hwp.ours && !supported
    {
      this.m := m;
      supported, captured, state, timer := false, false, Passive, Idle;
      capabilityMaximumMw, ceilingPl1Mw, ceilingPl2Mw, watchdogTimeoutMs := 0, 0, 0, TIMEOUT_MS;
      lastSequence, lastHeartbeat, accepted, logicalCpus := 0, 0, [], 0;
      var none := MakeRequest(0, 0, 0, 0);
      var blank := seq(MAX_CPUS, i => none);
      hwp := HwpBook(Capabilities(0, 0, 0, 0), ModeInvalid, false, false, false, false, false, none,
                     blank, seq(MAX_CPUS, i => false), blank, none, none);
    }

    /** `start`: passive, with Apple's guard restored if an older driver had cleared it. */
    method Start(now: nat)
      requires Stable() && Settled() && state == Passive && !hwp.captured && !hwp.ours && !supported
      modifies this`supported, this`capabilityMaximumMw, this`logicalCpus, this`timer, this`hwp, m`regs, m`log
      modifies m`guardOrdered
      ensures hwp == old(hwp).(capabilities := hwp.capabilities, on := hwp.on, failSafe := hwp.failSafe)
      ensures Valid() && m.regs == old(m.regs).(control := m.regs.control) && m.log == old(m.log)
      ensures m.p.knownCpu ==> CapabilityRead()
      ensures m.p.knownCpu && m.p.hwpSupported && Countable() ==> hwp.on == m.regs.hwpOn
      ensures supported ==> m.p.knownCpu && PowerPlausible() && Countable() && m.regs.Guarded()
      ensures m.p.knownCpu && PowerPlausible() && Countable() && (m.p.faithful || old(m.regs).Guarded()) ==> supported
    {
      var plausible := ReadCapabilities();
      PublishIf(plausible, now);
    }

    method ReadCapabilities() returns (plausible: bool)
      requires Stable() && !captured && !hwp.captured
      modifies this`capabilityMaximumMw, this`logicalCpus, this`hwp
      ensures hwp == old(hwp).(capabilities := hwp.capabilities, on := hwp.on, failSafe := hwp.failSafe)
      ensures Stable() && (plausible <==> m.p.knownCpu && PowerPlausible()) && (m.p.knownCpu ==> CapabilityRead())
      ensures if m.p.knownCpu && m.p.hwpSupported && Countable() then hwp.on == m.regs.hwpOn else hwp.on == old(hwp).on
    {
      plausible := ReadPowerInfo();
      if m.p.knownCpu {
        RefreshHwp();
      }
    }

    method PublishIf(plausible: bool, now: nat)
      requires Stable() && SequenceOk() && state == Passive && !captured && !hwp.captured && !hwp.ours
      modifies this`supported, this`logicalCpus, this`timer, m`regs, m`log, m`guardOrdered
      ensures Valid() && m.regs == old(m.regs).(control := m.regs.control) && m.log == old(m.log)
      ensures supported ==> plausible && Countable() && m.regs.Guarded()
      ensures plausible && Countable() && (m.p.faithful || old(m.regs).Guarded()) ==> supported
    {
      var usable := false;
      if plausible {
        usable := EnsurePassiveGuard();
      }
      Publish(usable, now);
    }

    /** The capability maximum is the one of 0x614, or the larger current limit where that has none. */
    ghost predicate CapabilityRead()
      reads this`capabilityMaximumMw, m`regs
    {
      var maximum, l := RawToMw(m.p.maximumRaw, m.p.powerExponent), m.regs.limit;
      var pl1, pl2 := RawToMw(l.pl1, m.p.powerExponent), RawToMw(l.pl2, m.p.powerExponent);
      && (maximum > 0 ==> capabilityMaximumMw == maximum)
      && (maximum == 0 ==> capabilityMaximumMw >= pl1 && capabilityMaximumMw >= pl2
                           && capabilityMaximumMw in {pl1, pl2})
    }

    /** A unit that can be read, a thermal limit, and a maximum that is not below the floor. */
    ghost predicate PowerPlausible()
      reads m`regs
    {
      var e, l := m.p.powerExponent, m.regs.limit;
      && e <= 30 && RawToMw(m.p.thermalRaw, e) != 0
      && (RawToMw(m.p.maximumRaw, e) >= m.p.FloorMw()
          || (RawToMw(m.p.maximumRaw, e) == 0
              && (RawToMw(l.pl1, e) >= m.p.FloorMw() || RawToMw(l.pl2, e) >= m.p.FloorMw())))
    }

    method ReadPowerInfo() returns (plausible: bool)
      modifies this`capabilityMaximumMw
      ensures plausible <==> m.p.knownCpu && PowerPlausible()
      ensures m.p.knownCpu ==> CapabilityRead()
    {
      if !m.p.knownCpu {
        return false;
      }
      var e := m.p.powerExponent;
      capabilityMaximumMw := RawToMw(m.p.maximumRaw, e);
      if capabilityMaximumMw == 0 {
        var pl1, pl2 := RawToMw(m.regs.limit.pl1, e), RawToMw(m.regs.limit.pl2, e);
        capabilityMaximumMw := if pl1 > pl2 then pl1 else pl2;
      }
      plausible := e < 31 && RawToMw(m.p.thermalRaw, e) > 0 && capabilityMaximumMw >= m.p.FloorMw();
    }

    method Publish(usable: bool, now: nat)
      requires Stable() && SequenceOk() && state == Passive && !captured && !hwp.captured && !hwp.ours
      requires usable ==> m.regs.Guarded()
      modifies this`supported, this`timer
      ensures Valid() && supported == usable
    {
      supported := usable;
      SchedulePassiveGuard(now);
    }

    // ----- Invariants

    ghost predicate Countable()
    {
      1 <= m.p.cpus <= MAX_CPUS
    }

    /** A limit the driver may put in 0x610. */
    ghost predicate WithinBoot(l: PowerLimit)
    {
      l.pl1 <= m.p.boot.pl1 && l.pl2 <= m.p.boot.pl2 && l.SameWindows(m.p.boot)
    }

    ghost predicate Stable()
      reads this`captured, this`capturedLimit, this`saved, this`hwp, m
    {
      && m.Shaped() && m.Chronicled() && hwp.ours == m.enabled
      && WithinBoot(m.regs.limit) && (m.regs.limit.locked ==> m.p.boot.locked)
      && |hwp.requests| == |hwp.present| == |hwp.expected| == MAX_CPUS
      && (hwp.on ==> m.regs.hwpOn && m.p.hwpSupported && Countable())
      && (hwp.capabilities == m.p.capabilities || !hwp.capabilities.Sane())
      && (hwp.failSafeActive ==> hwp.failSafe == m.p.FailSafe())
      && (hwp.captured ==> hwp.on && HwpCapture())
      && (captured ==> Session())
    }

    /** What a successful HWP capture leaves in the captured arrays. */
    ghost predicate HwpCapture()
      reads this`hwp
    {
      CaptureHolds(m.p, hwp.requests, hwp.present)
    }

    /** What ties the hardware to the registers captured by the current arm. */
    ghost predicate Session()
      reads this`capturedLimit, this`saved, this`hwp, m`regs, m`guardOrdered, m`takeover
    {
      && m.Shaped() && m.takeover.Taken? && m.takeover.found == saved && capturedLimit == saved.limit
      && SessionHolds(m.p, m.regs, saved, hwp.ours, hwp.captured, hwp.requests, hwp.present, hwp.package)
    }

    /** The reported ceilings are those of the captured limits. */
    ghost predicate Ceilings()
      reads this`capturedLimit, this`ceilingPl1Mw, this`ceilingPl2Mw
    {
      && ceilingPl1Mw == RawToMw(capturedLimit.pl1, m.p.powerExponent)
      && ceilingPl2Mw == RawToMw(capturedLimit.pl2, m.p.powerExponent)
    }

    /** The governor is in force exactly as the last accepted request asked. */
    ghost predicate InForce()
      reads this, m
    {
      && Overriding() && CapabilitiesUsable() && m.regs.limit == expectedLimit && Ceilings()
      && (forall c | 0 <= c < m.p.cpus :: !m.regs.control[c].guard)
      && watchdogTimeoutMs == TIMEOUT_MS && timer.Due? && timer.at < lastHeartbeat + TIMEOUT_MS * 1_000_000 + POLL_NS
    }

    /** Sequence numbers accepted so far strictly increase, and the next one has to be larger still. */
    ghost predicate SequenceOk()
      reads this`accepted, this`lastSequence
    {
      && (forall i, j | 0 <= i < j < |accepted| :: accepted[i] < accepted[j])
      && (forall i | 0 <= i < |accepted| :: accepted[i] <= lastSequence)
    }

    /** The part of `Valid` that does not depend on the HWP bookkeeping. */
    ghost predicate Settled()
      reads this`supported, this`captured, this`state, this`timer, this`accepted, this`lastSequence, this`hwp
      reads m`regs
    {
      && SequenceOk() && (captured <==> state == Armed) && (captured ==> supported) && (supported ==> timer.Due?)
      && (supported && state == Passive ==> m.regs.Guarded() && (hwp.ours ==> m.regs.hwpOn && m.regs.FailSafe(m.p)))
    }

    /** What every locked section leaves behind. */
    ghost predicate Valid()
      reads this, m
    {
      Stable() && Settled() && (hwp.captured ==> captured) && (state == Armed ==> InForce())
    }

    predicate LimitsVerified(expected: PowerLimit)
      reads m`regs
    {
      m.regs.limit.Matches(expected) && !m.regs.limit.locked
    }

    // ----- Broadcasts

    method ReadPowerControl() returns (ok: bool, allEnabled: bool, allDisabled: bool)
      requires m.Shaped() && m.Chronicled()
      modifies this`logicalCpus
      ensures ok <==> Countable()
      ensures ok ==> (allEnabled <==> m.regs.Guarded()) && logicalCpus == m.p.cpus
      ensures ok ==> (allDisabled <==> forall c | 0 <= c < m.p.cpus :: !m.regs.control[c].guard)
      ensures !ok ==> logicalCpus == old(logicalCpus)
    {
      var count, overflow, values, owner := GuardRendezvous(m, ReadGuard);
      ok, allEnabled, allDisabled := false, false, false;
      if overflow != 0 || count <= 0 || count > MAX_CPUS {
        return;
      }
      ok, allEnabled, allDisabled := true, true, true;
      var i := 0;
      while i < count
        invariant 0 <= i <= count <= MAX_CPUS
        invariant allEnabled <==> forall k | 0 <= k < i :: values[k].guard
        invariant allDisabled <==> forall k | 0 <= k < i :: !values[k].guard
      {
        allEnabled := allEnabled && values[i].guard;
        allDisabled := allDisabled && !values[i].guard;
        i := i + 1;
      }
      EverySlot(m.regs.control, values, owner, true);
      EverySlot(m.regs.control, values, owner, false);
      logicalCpus := count;
    }

    /** Checking every slot is checking every CPU. */
    lemma EverySlot(control: seq<PowerControl>, values: seq<PowerControl>, owner: seq<nat>, on: bool)
      requires |control| <= |values| && Permutation(owner, |control|)
      requires forall k | 0 <= k < |control| :: values[k] == control[owner[k]]
      ensures (forall k | 0 <= k < |control| :: values[k].guard == on)
              <==> (forall c | 0 <= c < |control| :: control[c].guard == on)
    {
      if forall k | 0 <= k < |control| :: values[k].guard == on {
        forall c: nat | c < |control|
          ensures control[c].guard == on
        {
          assert c in owner;
          var k :| 0 <= k < |owner| && owner[k] == c;
          assert values[k].guard == on;
        }
      }
    }

    /** True exactly when every CPU's guard bit reads back as commanded; only the guard bits may have changed. */
    method SetGuardAll(enabled: bool) returns (ok: bool)
      requires m.Shaped() && m.Chronicled()
      requires !enabled ==> MayClear(m.regs, m.takeover, m.p)
      modifies this`logicalCpus, m`regs, m`log, m`guardOrdered
      ensures m.Shaped() && m.Chronicled() && m.regs == old(m.regs).(control := m.regs.control)
      ensures forall c | 0 <= c < m.p.cpus :: m.regs.control[c].rest == old(m.regs).control[c].rest
      ensures forall c | 0 <= c < m.p.cpus :: m.guardOrdered[c] == enabled
      ensures enabled && old(m.regs).Guarded() ==> m.regs == old(m.regs)
      ensures ok <==> Countable() && forall c | 0 <= c < m.p.cpus :: m.regs.control[c].guard == enabled
      ensures ok ==> logicalCpus == m.p.cpus
      ensures enabled ==> m.log == old(m.log)
      ensures m.p.faithful ==> forall c | 0 <= c < m.p.cpus :: m.regs.control[c].guard == enabled
    {
      var op := if enabled then SetGuard else ClearGuard;
      var count, overflow, values, owner := GuardRendezvous(m, op);
      if enabled && old(m.regs).Guarded() {
        assert m.regs.control == old(m.regs).control;
      }
      ok := false;
      if overflow != 0 || count <= 0 || count > MAX_CPUS {
        return;
      }
      EverySlot(m.regs.control, values, owner, enabled);
      var i := 0;
      while i < count
        invariant 0 <= i <= count <= MAX_CPUS
        invariant forall k | 0 <= k < i :: values[k].guard == enabled
      {
        if values[i].guard != enabled {
          return;
        }
        i := i + 1;
      }
      logicalCpus := count;
      ok := true;
    }

    /** IA32_PM_ENABLE is package scoped: every CPU answering the broadcast sees the same bit. */
    method ReadHwpEnable() returns (ok: bool, allEnabled: bool)
      modifies this`logicalCpus
      ensures ok <==> m.p.hwpSupported && Countable()
      ensures ok ==> allEnabled == m.regs.hwpOn && logicalCpus == m.p.cpus
      ensures !ok ==> logicalCpus == old(logicalCpus)
    {
      ok, allEnabled := false, false;
      if m.p.hwpSupported && 1 <= m.p.cpus <= MAX_CPUS {
        ok, allEnabled := true, m.regs.hwpOn;
        logicalCpus := m.p.cpus;
      }
    }

    method ReadRequests() returns (ok: bool, values: seq<Request>, present: seq<bool>, count: nat)
      requires m.Shaped() && (hwp.on ==> m.regs.hwpOn)
      ensures |values| == |present| == MAX_CPUS
      ensures ok <==> m.p.hwpSupported && hwp.on && Countable()
      ensures ok ==> count == m.p.cpus && Prefix(present, m.p.cpus)
      ensures ok ==> forall c | 0 <= c < m.p.cpus :: values[c] == m.regs.requests[c]
    {
      var none := seq(MAX_CPUS, i => MakeRequest(0, 0, 0, 0));
      ok, values, present, count := false, none, seq(MAX_CPUS, i => false), 0;
      if !m.p.hwpSupported || !hwp.on {
        return;
      }
      var total, overflow;
      total, overflow, values, present := RequestRendezvous(m, false, none, present);
      if overflow != 0 || total <= 0 || total > MAX_CPUS {
        return;
      }
      count := CountPresent(present, m.p.cpus);
      ok := count == total;
    }

    /** Exactly the first `n` slots are filled. */
    method CountPresent(present: seq<bool>, ghost n: nat) returns (count: nat)
      requires |present| == MAX_CPUS && n <= MAX_CPUS
      ensures Prefix(present, n) ==> count == n
    {
      count := 0;
      for i := 0 to MAX_CPUS
        invariant Prefix(present, n) ==> count == if i < n then i else n
      {
        if present[i] {
          count := count + 1;
        }
      }
    }

    /** True exactly when the CPUs that answered are those with a target and each one now holds its target. */
    method WriteRequests(targets: seq<Request>, present: seq<bool>) returns (ok: bool)
      requires m.Shaped() && (hwp.on ==> m.regs.hwpOn) && |targets| == |present| == MAX_CPUS
      modifies m`regs
      ensures m.Shaped() && m.regs == old(m.regs).(requests := m.regs.requests)
      ensures ok <==> && m.p.hwpSupported && hwp.on && Countable()
                      && Prefix(present, m.p.cpus)
                      && (forall c | 0 <= c < m.p.cpus :: m.regs.requests[c] == targets[c])
      ensures (m.p.faithful && m.p.hwpSupported && hwp.on && Countable() && Prefix(present, m.p.cpus)) ==> ok
    {
      ok := false;
      if !m.p.hwpSupported || !hwp.on {
        return;
      }
      var targetCount := CountPresent(present, if m.p.cpus <= MAX_CPUS then m.p.cpus else 0);
      var total, overflow, values, answered := RequestRendezvous(m, true, targets, present);
      if overflow != 0 || total <= 0 || total != targetCount {
        return;
      }
      var i := 0;
      while i < MAX_CPUS
        invariant 0 <= i <= MAX_CPUS
        invariant forall c | 0 <= c < i :: present[c] == answered[c] && (present[c] ==> values[c] == targets[c])
      {
        if present[i] != answered[i] || (present[i] && values[i] != targets[i]) {
          return;
        }
        i := i + 1;
      }
      ok := true;
    }

    // ----- HWP

    method InitializeHwp() returns (ok: bool)
      requires m.Shaped() && (hwp.on ==> m.regs.hwpOn && m.p.hwpSupported && Countable())
      modifies this`logicalCpus, this`hwp
      ensures hwp == old(hwp).(capabilities := hwp.capabilities, on := hwp.on, failSafe := hwp.failSafe)
      ensures hwp.on ==> m.regs.hwpOn && m.p.hwpSupported && Countable()
      ensures hwp.capabilities in {old(hwp.capabilities), m.p.capabilities}
      ensures hwp.failSafe in {old(hwp.failSafe), m.p.FailSafe()}
      ensures ok <==> m.p.hwpSupported && Countable() && m.regs.hwpOn && m.p.capabilities.Sane()
      ensures ok ==> hwp.on && hwp.capabilities == m.p.capabilities
      ensures m.p.hwpSupported && Countable() && m.regs.hwpOn ==> hwp.on
      ensures !m.p.hwpSupported ==> hwp.on == old(hwp.on)
    {
      ok := false;
      if !m.p.hwpSupported {
        return;
      }
      var readable, allEnabled := ReadHwpEnable();
      hwp := hwp.(on := readable && allEnabled);
      if !hwp.on {
        return;
      }
      hwp := hwp.(capabilities := m.p.capabilities);
      if !hwp.capabilities.Sane() {
        return;
      }
      hwp := hwp.(failSafe := FailSafeRequest(hwp.capabilities, m.p.eppSupported));
      var values, present, count;
      ok, values, present, count := ReadRequests();
      if ok {
        logicalCpus := count;
      }
    }

    /** HWP is on with sane capabilities, and no CPU is under a package control that cannot be read. */
    ghost predicate Capturable()
      reads m`regs
    {
      && Countable() && m.p.hwpSupported && m.regs.hwpOn && m.p.capabilities.Sane()
      && |m.regs.requests| == m.p.cpus
      && (forall c | 0 <= c < m.p.cpus && m.regs.requests[c].packageControl :: m.p.packageSupported)
    }

    method CaptureHwpState() returns (ok: bool)
      requires m.Shaped() && !hwp.captured
      requires |hwp.requests| == |hwp.present| == |hwp.expected| == MAX_CPUS
      modifies this`logicalCpus, this`hwp
      ensures hwp.ours == old(hwp).ours
      ensures hwp.failSafeActive == old(hwp).failSafeActive && hwp.failSafe == old(hwp).failSafe
      ensures hwp.captured == ok
      ensures |hwp.requests| == |hwp.present| == |hwp.expected| == MAX_CPUS
      ensures hwp.on ==> m.regs.hwpOn && m.p.hwpSupported && Countable()
      ensures hwp.capabilities == m.p.capabilities || !hwp.capabilities.Sane()
      ensures ok ==> hwp.on && hwp.capabilities == m.p.capabilities && hwp.capabilities.Sane() && HwpCapture()
      ensures ok ==> forall c | 0 <= c < m.p.cpus :: hwp.requests[c] == m.regs.requests[c]
      ensures ok && m.p.packageSupported ==> hwp.package == m.regs.package
      ensures ok ==> hwp.mode == ModeInvalid && !hwp.overrideActive && logicalCpus == m.p.cpus
      ensures ok <==> Capturable()
    {
      ok := false;
      var readable, allEnabled := ReadHwpEnable();
      if !readable || !allEnabled {
        hwp := hwp.(on := false, capabilities := Capabilities(0, 0, 0, 0));
        return;
      }
      hwp := hwp.(on := true, capabilities := m.p.capabilities);
      if !hwp.capabilities.Sane() {
        return;
      }
      ok := CaptureRequests();
    }

    /** Every CPU's request and the package request. */
    method CaptureRequests() returns (ok: bool)
      requires m.Shaped() && !hwp.captured && hwp.on && m.regs.hwpOn && m.p.hwpSupported && Countable()
      requires |hwp.requests| == |hwp.present| == |hwp.expected| == MAX_CPUS
      modifies this`logicalCpus, this`hwp
      ensures hwp == old(hwp).(requests := hwp.requests, present := hwp.present, package := hwp.package,
                               mode := hwp.mode, captured := hwp.captured, overrideActive := hwp.overrideActive,
                               expected := hwp.expected, expectedPackage := hwp.expectedPackage)
      ensures |hwp.requests| == |hwp.present| == |hwp.expected| == MAX_CPUS && hwp.captured == ok
      ensures ok ==> HwpCapture() && hwp.mode == ModeInvalid && !hwp.overrideActive && logicalCpus == m.p.cpus
      ensures ok ==> forall c | 0 <= c < m.p.cpus :: hwp.requests[c] == m.regs.requests[c]
      ensures ok && m.p.packageSupported ==> hwp.package == m.regs.package
      ensures ok <==> forall c | 0 <= c < m.p.cpus && m.regs.requests[c].packageControl :: m.p.packageSupported
    {
      var values, present, count;
      ok, values, present, count := ReadRequests();
      var package := if m.p.packageSupported then m.regs.package else MakeRequest(0, 0, 0, 0);
      hwp := hwp.(requests := values, present := present, package := package);
      ok := AdoptCapture(count);
    }

    /** Refuses requests under package control when there is no package request; otherwise takes the capture. */
    method AdoptCapture(count: nat) returns (ok: bool)
      requires !hwp.captured && |hwp.requests| == |hwp.present| == |hwp.expected| == MAX_CPUS
      modifies this`logicalCpus, this`hwp
      ensures hwp == old(hwp).(mode := hwp.mode, captured := hwp.captured, overrideActive := hwp.overrideActive,
                               expected := hwp.expected, expectedPackage := hwp.expectedPackage)
      ensures |hwp.expected| == MAX_CPUS && hwp.captured == ok
      ensures ok <==> forall c | 0 <= c < MAX_CPUS && hwp.present[c] && hwp.requests[c].packageControl ::
                m.p.packageSupported
      ensures ok ==> hwp.mode == ModeInvalid && !hwp.overrideActive && logicalCpus == count
    {
      ok := false;
      var i := 0;
      while i < MAX_CPUS
        invariant 0 <= i <= MAX_CPUS && |hwp.expected| == MAX_CPUS && hwp == old(hwp).(expected := hwp.expected)
        invariant forall c | 0 <= c < i && hwp.present[c] && hwp.requests[c].packageControl :: m.p.packageSupported
      {
        if hwp.present[i] && hwp.requests[i].packageControl && !m.p.packageSupported {
          return;
        }
        hwp := hwp.(expected := hwp.expected[i := hwp.requests[i]]);
        i := i + 1;
      }
      hwp := hwp.(expectedPackage := hwp.package, captured := true, overrideActive := false, mode := ModeInvalid);
      logicalCpus := count;
      ok := true;
    }

    method VerifyFailSafe() returns (ok: bool)
      requires m.Shaped() && (hwp.on ==> m.regs.hwpOn && m.p.hwpSupported && Countable())
      requires hwp.failSafeActive ==> hwp.failSafe == m.p.FailSafe()
      ensures ok <==> hwp.ours && hwp.on && hwp.failSafeActive && logicalCpus == m.p.cpus && m.regs.FailSafe(m.p)
      ensures ok ==> m.regs.hwpOn
    {
      if !hwp.ours || !hwp.on || !hwp.failSafeActive {
        return false;
      }
      var readable, values, present, count := ReadRequests();
      if !readable || count != logicalCpus {
        return false;
      }
      var i := 0;
      while i < MAX_CPUS
        invariant 0 <= i <= MAX_CPUS
        invariant forall c | 0 <= c < i && present[c] :: values[c] == hwp.failSafe
      {
        if present[i] && values[i] != hwp.failSafe {
          return false;
        }
        i := i + 1;
      }
      assert forall c | 0 <= c < m.p.cpus :: present[c] && m.regs.requests[c] == values[c];
      return true;
    }

    /** The request writes of the fail-safe touch nothing else, and success means every CPU reads it back. */
    method EnsureFailSafe() returns (ok: bool)
      requires Stable()
      modifies this`logicalCpus, this`hwp, m`regs
      ensures hwp == old(hwp).(mode := hwp.mode, overrideActive := hwp.overrideActive,
                               failSafeActive := hwp.failSafeActive, failSafe := hwp.failSafe)
      ensures m.Shaped() && m.regs == old(m.regs).(requests := m.regs.requests)
      ensures !hwp.ours ==> m.regs == old(m.regs)
      ensures hwp.failSafeActive ==> hwp.failSafe == m.p.FailSafe()
      ensures ok ==>
                hwp.ours && m.regs.hwpOn && m.regs.FailSafe(m.p) && hwp.mode == ModeInvalid && logicalCpus == m.p.cpus
      ensures (m.p.faithful && hwp.ours && hwp.on && hwp.capabilities == m.p.capabilities && hwp.capabilities.Sane()
               && hwp.capabilities.lowest < hwp.capabilities.highest) ==> ok
      ensures ok && hwp.capabilities == m.p.capabilities ==> FrugalEverywhere()
    {
      ok := false;
      if !hwp.ours || !hwp.on || !hwp.capabilities.Sane() || hwp.capabilities.highest <= hwp.capabilities.lowest {
        return;
      }
      var written := WriteFailSafe();
      if written {
        ok := VerifyFailSafe();
      }
      FailSafeIsFrugal(m.p.capabilities, m.p.eppSupported);
    }

    method WriteFailSafe() returns (ok: bool)
      requires Stable() && hwp.ours && hwp.on && hwp.capabilities.Sane()
      requires hwp.capabilities.lowest < hwp.capabilities.highest
      modifies this`logicalCpus, this`hwp, m`regs
      ensures hwp == old(hwp).(mode := hwp.mode, overrideActive := hwp.overrideActive,
                               failSafeActive := hwp.failSafeActive, failSafe := hwp.failSafe)
      ensures m.Shaped() && m.regs == old(m.regs).(requests := m.regs.requests)
      ensures hwp.failSafeActive ==> hwp.failSafe == m.p.FailSafe()
      ensures ok ==>
                m.regs.FailSafe(m.p) && hwp.mode == ModeInvalid && logicalCpus == m.p.cpus && hwp.failSafeActive
      ensures ok ==> !hwp.overrideActive
      ensures m.p.faithful ==> ok
    {
      ok := false;
      hwp := hwp.(failSafe := FailSafeRequest(hwp.capabilities, m.p.eppSupported));
      var readable, current, present, count := ReadRequests();
      if !readable {
        return;
      }
      var request, none := hwp.failSafe, MakeRequest(0, 0, 0, 0);
      var targets := seq(MAX_CPUS, c requires 0 <= c < MAX_CPUS => if present[c] then request else none);
      var written := WriteRequests(targets, present);
      if !written {
        return;
      }
      logicalCpus, hwp := count, hwp.(mode := ModeInvalid, overrideActive := false, failSafeActive := true);
      ok := true;
    }

    /** Every CPU holds a request that keeps it slow. */
    ghost predicate FrugalEverywhere()
      reads m`regs
    {
      forall c | 0 <= c < |m.regs.requests| :: Frugal(m.regs.requests[c], m.p.capabilities, m.p.eppSupported)
    }

    method MaximumRestricted(values: seq<Request>, present: seq<bool>, package: Request) returns (ok: bool)
      requires |values| == |present| == MAX_CPUS
      ensures ok <==> && m.p.hwpSupported && hwp.on && (exists c :: 0 <= c < MAX_CPUS && present[c])
                      && forall c | 0 <= c < MAX_CPUS && present[c] ::
                           Restricted(values[c], package, hwp.capabilities, m.p.flexible)
    {
      ok := false;
      if !m.p.hwpSupported || !hwp.on {
        return;
      }
      var anyPresent := false;
      var i := 0;
      while i < MAX_CPUS
        invariant 0 <= i <= MAX_CPUS
        invariant anyPresent <==> exists c :: 0 <= c < i && present[c]
        invariant forall c | 0 <= c < i && present[c] :: Restricted(values[c], package, hwp.capabilities, m.p.flexible)
      {
        if present[i] {
          anyPresent := true;
          var effective := values[i].EffectiveMaximum(package, m.p.flexible);
          if effective < hwp.capabilities.lowest || effective >= hwp.capabilities.highest {
            return;
          }
        }
        i := i + 1;
      }
      ok := anyPresent;
    }

    /** The request the override gives a CPU whose captured request is `r`. */
    function Override(r: Request): Request
      reads this`hwp
    {
      if hwp.ours then ActiveRequest(hwp.capabilities, m.p.eppSupported)
      else if r.packageControl && !m.p.flexible then r
      else r.WithLocalMaximum(hwp.capabilities.highest, m.p.flexible)
    }

    /** Fills `expectedRequests` and reports whether some maximum has to be raised in the package request. */
    method PlanOverride() returns (packageNeeded: bool)
      requires m.Shaped() && HwpCapture() && |hwp.expected| == MAX_CPUS
      modifies this`hwp
      ensures hwp == old(hwp).(expected := hwp.expected, expectedPackage := hwp.expectedPackage)
      ensures |hwp.expected| == MAX_CPUS
      ensures forall c | 0 <= c < m.p.cpus && c < MAX_CPUS :: hwp.expected[c] == Override(hwp.requests[c])
      ensures packageNeeded ==> !hwp.ours && m.p.packageSupported && !m.p.flexible
      ensures hwp.expectedPackage == if packageNeeded then hwp.package.WithMaximum(hwp.capabilities.highest)
                else hwp.package
      ensures !packageNeeded ==> forall c | 0 <= c < m.p.cpus && c < MAX_CPUS ::
                hwp.ours || !hwp.requests[c].packageControl || m.p.flexible
    {
      packageNeeded := false;
      var planned := hwp.expected;
      for i := 0 to MAX_CPUS
        invariant |planned| == MAX_CPUS && (packageNeeded ==> !hwp.ours && m.p.packageSupported && !m.p.flexible)
        invariant forall c | 0 <= c < i && hwp.present[c] :: planned[c] == Override(hwp.requests[c])
        invariant !packageNeeded ==> forall c | 0 <= c < i && hwp.present[c] ::
                    hwp.ours || !hwp.requests[c].packageControl || m.p.flexible
      {
        if hwp.present[i] {
          if !hwp.ours && hwp.requests[i].packageControl && !m.p.flexible {
            packageNeeded := true;
          }
          planned := planned[i := Override(hwp.requests[i])];
        }
      }
      var raised := hwp.package.WithMaximum(hwp.capabilities.highest);
      hwp := hwp.(expected := planned, expectedPackage := if packageNeeded then raised else hwp.package);
    }

    /** The request registers hold the planned override, and every CPU may reach the highest level. */
    ghost predicate OverrideHeld()
      reads this`hwp, m`regs
    {
      && |m.regs.requests| == m.p.cpus && m.p.cpus <= |hwp.expected|
      && (m.p.packageSupported ==> m.regs.package == hwp.expectedPackage)
      && forall c | 0 <= c < m.p.cpus ::
           && m.regs.requests[c] == hwp.expected[c]
           && m.regs.requests[c].EffectiveMaximum(hwp.expectedPackage, m.p.flexible) == hwp.capabilities.highest
    }

    method VerifyOverride() returns (ok: bool)
      requires m.Shaped() && (hwp.on ==> m.regs.hwpOn && m.p.hwpSupported && Countable())
      requires |hwp.expected| == |hwp.present| == MAX_CPUS
      ensures ok <==>
                && hwp.captured && hwp.overrideActive && hwp.mode != ModeInvalid && hwp.on && logicalCpus == m.p.cpus
                && Prefix(hwp.present, m.p.cpus) && OverrideHeld()
    {
      ok := false;
      if !hwp.captured || !hwp.overrideActive || hwp.mode == ModeInvalid {
        return;
      }
      if m.p.packageSupported {
        if !m.regs.hwpOn || m.regs.package != hwp.expectedPackage {
          return;
        }
      }
      var readable, current, present, count := ReadRequests();
      if !readable || count != logicalCpus {
        return;
      }
      var i := 0;
      while i < MAX_CPUS
        invariant 0 <= i <= MAX_CPUS
        invariant forall c | 0 <= c < i ::
                    && present[c] == hwp.present[c]
                    && (present[c] ==>
                          && current[c] == hwp.expected[c]
                          && current[c].EffectiveMaximum(hwp.expectedPackage, m.p.flexible) == hwp.capabilities.highest)
      {
        if present[i] != hwp.present[i] {
          return;
        }
        if present[i]
           && (current[i] != hwp.expected[i]
               || current[i].EffectiveMaximum(hwp.expectedPackage, m.p.flexible) != hwp.capabilities.highest) {
          return;
        }
        i := i + 1;
      }
      ok := true;
      assert forall c | 0 <= c < m.p.cpus :: present[c] && current[c] == m.regs.requests[c];
    }

    method WritePackage(value: Request) returns (ok: bool)
      requires m.Shaped()
      modifies m`regs
      ensures m.regs == old(m.regs).(package := m.regs.package)
      ensures !m.p.packageSupported || !m.p.hwpSupported || !m.regs.hwpOn ==> m.regs == old(m.regs) && !ok
      ensures ok ==> m.regs.package == value
      ensures (m.p.faithful && m.p.packageSupported && m.p.hwpSupported && m.regs.hwpOn) ==> ok
    {
      ok := false;
      if m.p.packageSupported && m.p.hwpSupported && m.regs.hwpOn {
        m.WritePackageRequest(value);
        ok := m.regs.package == value;
      }
    }

    /** With an HWP the driver turned on, every request is the unrestrained one; otherwise the captured requests are in
        place, with nothing but a maximum raised. */
    ghost predicate OverrideMild()
      reads this`hwp, m`regs
    {
      && |m.regs.requests| == m.p.cpus && m.p.cpus <= |hwp.requests|
      && (forall c | 0 <= c < m.p.cpus ::
            if hwp.ours then Unrestrained(m.regs.requests[c], m.p.capabilities, m.p.eppSupported)
            else RaisedFrom(m.regs.requests[c], hwp.requests[c]))
      && (m.p.packageSupported && !hwp.ours ==> RaisedFrom(m.regs.package, hwp.package))
      && (m.p.packageSupported && !hwp.ours && m.p.flexible ==> m.regs.package == hwp.package)
    }

    /** The override is in force: everything `verifyHWPOverrideLocked` checks. */
    ghost predicate Overriding()
      reads this`logicalCpus, this`hwp, m`regs, m`guardOrdered
    {
      && m.Shaped() && hwp.captured && hwp.on && hwp.overrideActive && hwp.mode != ModeInvalid
      && logicalCpus == m.p.cpus && hwp.capabilities == m.p.capabilities && OverrideHeld() && OverrideMild()
      && m.regs.Released(m.p)
    }

    lemma OverrideReleases(r: Request, package: Request)
      requires hwp.ours || !r.packageControl || m.p.flexible || package.maximum == hwp.capabilities.highest
      ensures Override(r).EffectiveMaximum(package, m.p.flexible) == hwp.capabilities.highest
      ensures if hwp.ours then Unrestrained(Override(r), hwp.capabilities, m.p.eppSupported)
              else RaisedFrom(Override(r), r)
    {
    }

    /** Plans and writes the override; only request registers change. */
    method WriteOverride() returns (ok: bool)
      requires m.Shaped() && hwp.captured && HwpCapture() && |hwp.expected| == MAX_CPUS
      requires hwp.on && m.regs.hwpOn && m.p.hwpSupported && Countable()
      requires m.p.packageSupported ==> m.regs.package == hwp.package
      modifies this`hwp, m`regs
      ensures hwp == old(hwp).(expected := hwp.expected, expectedPackage := hwp.expectedPackage)
      ensures m.Shaped() && |hwp.expected| == MAX_CPUS
      ensures m.regs == old(m.regs).(package := m.regs.package, requests := m.regs.requests)
      ensures m.regs.package == old(m.regs).package || (!hwp.ours && m.p.packageSupported)
      ensures ok ==> OverrideHeld()
      ensures ok && hwp.capabilities == m.p.capabilities ==> m.regs.Released(m.p) && OverrideMild()
      ensures m.p.faithful ==> ok
    {
      ok := false;
      var packageNeeded := PlanOverride();
      if packageNeeded {
        var raised := WritePackage(hwp.expectedPackage);
        if !raised {
          return;
        }
      }
      ok := WriteRequests(hwp.expected, hwp.present);
      if ok {
        forall c | 0 <= c < m.p.cpus
          ensures m.regs.requests[c].EffectiveMaximum(hwp.expectedPackage, m.p.flexible) == hwp.capabilities.highest
          ensures m.regs.requests[c].EffectiveMaximum(m.regs.package, m.p.flexible) == hwp.capabilities.highest
          ensures if hwp.ours then Unrestrained(m.regs.requests[c], hwp.capabilities, m.p.eppSupported)
                  else RaisedFrom(m.regs.requests[c], hwp.requests[c])
        {
          OverrideReleases(hwp.requests[c], hwp.expectedPackage);
          OverrideReleases(hwp.requests[c], m.regs.package);
        }
      }
    }

    method WriteOverrideStable() returns (ok: bool)
      requires Stable() && captured && hwp.captured
      requires m.p.packageSupported ==> m.regs.package == hwp.package
      modifies this`hwp, m`regs
      ensures hwp == old(hwp).(expected := hwp.expected, expectedPackage := hwp.expectedPackage)
      ensures Stable()
      ensures m.regs == old(m.regs).(package := m.regs.package, requests := m.regs.requests)
      ensures ok ==> OverrideHeld()
      ensures ok && hwp.capabilities == m.p.capabilities ==> m.regs.Released(m.p) && OverrideMild()
      ensures m.p.faithful ==> ok
    {
      ok := WriteOverride();
    }

    method ActivateOverride(mode: HwpMode) returns (ok: bool)
      requires Stable() && captured && hwp.captured && mode != ModeInvalid
      requires hwp.capabilities == m.p.capabilities && logicalCpus == m.p.cpus
      requires OverrideHeld() && OverrideMild() && m.regs.Released(m.p)
      modifies this`hwp
      ensures hwp == old(hwp).(mode := hwp.mode, overrideActive := hwp.overrideActive,
                               failSafeActive := hwp.failSafeActive)
      ensures Stable() && ok && Overriding() && hwp.mode == mode
    {
      hwp := hwp.(mode := mode, overrideActive := true, failSafeActive := false);
      ok := VerifyOverride();
    }

    method ApplyHwpMaximum(mode: HwpMode) returns (ok: bool)
      requires Stable() && captured
      requires hwp.captured ==> hwp.capabilities == m.p.capabilities && logicalCpus == m.p.cpus
      requires hwp.captured && m.p.packageSupported ==> m.regs.package == hwp.package
      modifies this`hwp, m`regs
      ensures hwp == old(hwp).(mode := hwp.mode, overrideActive := hwp.overrideActive,
                               failSafeActive := hwp.failSafeActive, expected := hwp.expected,
                               expectedPackage := hwp.expectedPackage)
      ensures Stable()
      ensures m.regs == old(m.regs).(package := m.regs.package, requests := m.regs.requests)
      ensures ok ==> Overriding() && old(hwp.mode) == ModeInvalid && hwp.mode == mode
      ensures (m.p.faithful && hwp.captured && old(hwp.mode) == ModeInvalid && mode != ModeInvalid) ==> ok
    {
      ok := false;
      if !hwp.captured || hwp.mode != ModeInvalid || mode == ModeInvalid {
        return;
      }
      var written := WriteOverrideStable();
      if written {
        ok := ActivateOverride(mode);
      }
    }

    // ----- Package limits

    /** Success means 0x610 holds exactly the encoded request. */
    method InstallLimits(pl1Mw: nat, pl2Mw: nat) returns (ok: bool)
      requires Stable() && captured && InstallAsked(pl1Mw, pl2Mw)
      modifies this`expectedLimit, m`regs, m`log
      ensures Stable() && m.regs == old(m.regs).(limit := m.regs.limit)
      ensures ok ==> m.regs.limit == expectedLimit == RequestedLimit(pl1Mw, pl2Mw)
      ensures (m.p.faithful && !old(m.regs).limit.locked
               && MwToRaw(pl1Mw, m.p.powerExponent) <= capturedLimit.pl1
               && MwToRaw(pl2Mw, m.p.powerExponent) <= capturedLimit.pl2) ==> ok
    {
      ok := false;
      if m.regs.limit.locked {
        return;
      }
      var raw1, raw2 := MwToRaw(pl1Mw, m.p.powerExponent), MwToRaw(pl2Mw, m.p.powerExponent);
      if raw1 > capturedLimit.pl1 || raw2 > capturedLimit.pl2 {
        return;
      }
      var requested := m.regs.limit.WithLimits(raw1, raw2);
      ok := WriteAsked(requested, pl1Mw, pl2Mw);
      if ok {
        expectedLimit := requested;
      }
    }

    /** Writes a limit that was asked for, and reads it back. */
    method WriteAsked(requested: PowerLimit, ghost pl1Mw: nat, ghost pl2Mw: nat) returns (ok: bool)
      requires Stable() && captured && InstallAsked(pl1Mw, pl2Mw) && !m.regs.limit.locked
      requires requested == RequestedLimit(pl1Mw, pl2Mw)
      requires requested.pl1 <= capturedLimit.pl1 && requested.pl2 <= capturedLimit.pl2
      modifies m`regs, m`log
      ensures Stable() && m.regs == old(m.regs).(limit := m.regs.limit)
      ensures ok ==> m.regs.limit == requested
      ensures m.p.faithful ==> ok
    {
      AskedMayBeWritten(requested, pl1Mw, pl2Mw);
      m.WriteLimit(requested);
      ok := LimitsVerified(requested);
    }

    lemma AskedMayBeWritten(requested: PowerLimit, pl1Mw: nat, pl2Mw: nat)
      requires Stable() && captured && InstallAsked(pl1Mw, pl2Mw) && !m.regs.limit.locked
      requires requested == RequestedLimit(pl1Mw, pl2Mw)
      requires requested.pl1 <= capturedLimit.pl1 && requested.pl2 <= capturedLimit.pl2
      ensures Rule(m.Now(LimitWrite(requested)), m.takeover, m.enabled, m.p) && WithinBoot(requested)
    {
    }

    /** These are the limits of the request in force, or those its bootstrap starts from. */
    ghost predicate InstallAsked(pl1Mw: nat, pl2Mw: nat)
      reads m`takeover
    {
      && m.takeover.Taken?
      && var r := m.takeover.current;
         (pl1Mw == r.pl1Mw && pl2Mw == r.pl2Mw) || pl1Mw == pl2Mw == r.BootstrapMw(m.p)
    }

    ghost function RequestedLimit(pl1Mw: nat, pl2Mw: nat): PowerLimit
    {
      m.p.boot.WithLimits(MwToRaw(pl1Mw, m.p.powerExponent), MwToRaw(pl2Mw, m.p.powerExponent))
    }

    // ----- Bootstrap

    /** What the bootstrap demands of the limit register before it touches the HWP enable bit. */
    ghost predicate BootstrapReady()
      reads this`expectedLimit, m`takeover
    {
      && m.takeover.Taken? && expectedLimit == m.takeover.current.BootstrapLimit(m.p)
      && expectedLimit.pl1 == expectedLimit.pl2 <= MwToRaw(m.p.BootstrapLimitMw(), m.p.powerExponent)
      && expectedLimit.pl1Enabled && expectedLimit.pl2Enabled && !expectedLimit.locked
    }

    method BootstrapEnable() returns (ok: bool)
      requires Stable() && captured && !hwp.captured && BootstrapReady()
      modifies this`logicalCpus, this`hwp, m`regs, m`log, m`enabled
      ensures hwp == old(hwp).(on := hwp.on, ours := hwp.ours)
      ensures Stable()
      ensures m.regs == old(m.regs).(hwpOn := m.regs.hwpOn)
      ensures ok ==> hwp.ours && hwp.on && logicalCpus == m.p.cpus
      ensures (m.p.faithful && m.p.hwpSupported && Countable() && !old(hwp.on) && !old(m.regs).hwpOn
               && LimitsVerified(expectedLimit) && m.regs.Guarded()) ==> ok
    {
      ok := MayBootstrap();
      if ok {
        ok := SwitchOn();
      }
    }

    /** The checks before HWP is turned on. */
    method MayBootstrap() returns (ok: bool)
      requires Stable() && captured && BootstrapReady()
      modifies this`logicalCpus
      ensures ok ==> m.p.hwpSupported && Countable() && !hwp.on && !m.regs.hwpOn
      ensures ok ==> m.regs.limit == expectedLimit && m.regs.Guarded()
      ensures (m.p.hwpSupported && Countable() && !hwp.on && !m.regs.hwpOn && LimitsVerified(expectedLimit)
               && m.regs.Guarded()) ==> ok
    {
      ok := false;
      if !m.p.hwpSupported || hwp.on || !LimitsVerified(expectedLimit) {
        return;
      }
      var readable, allEnabled, allDisabled := ReadPowerControl();
      if !readable || !allEnabled {
        return;
      }
      var hwpReadable, hwpAll := ReadHwpEnable();
      ok := hwpReadable && !hwpAll;
    }

    /** `enableHWPPackageLocked`: the one write, and its readback. */
    method SwitchOn() returns (ok: bool)
      requires Stable() && captured && !hwp.captured && BootstrapReady() && m.regs.limit == expectedLimit
      requires m.p.hwpSupported && Countable() && m.regs.Guarded()
      modifies this`hwp, this`logicalCpus, m`regs, m`log, m`enabled
      ensures hwp == old(hwp).(on := hwp.on, ours := true) && (ok ==> logicalCpus == m.p.cpus)
      ensures Stable() && m.regs == old(m.regs).(hwpOn := m.regs.hwpOn)
      ensures ok == hwp.on && (m.p.faithful ==> ok)
    {
      m.WriteHwpEnable();
      var readable, all := ReadHwpEnable();
      hwp := hwp.(ours := true, on := readable && all);
      ok := hwp.on;
    }

    method BootstrapCapture() returns (ok: bool)
      requires Stable() && captured && !hwp.captured && hwp.ours && hwp.on
      modifies this`logicalCpus, this`hwp
      ensures hwp.ours == old(hwp).ours && hwp.failSafeActive == old(hwp).failSafeActive
      ensures Stable() && hwp.captured == ok
      ensures ok ==> CapabilitiesUsable() && logicalCpus == m.p.cpus && hwp.mode == ModeInvalid
      ensures ok && m.p.packageSupported ==> m.regs.package == hwp.package
      ensures (m.p.capabilities.Sane() && m.p.capabilities.lowest < m.p.capabilities.highest
               && m.p.packageSupported) ==> ok
    {
      ok := InitializeHwp();
      if !ok || hwp.capabilities.highest <= hwp.capabilities.lowest {
        return false;
      }
      ok := CaptureHwpState();
    }

    ghost predicate CapabilitiesUsable()
      reads this`hwp
    {
      hwp.capabilities == m.p.capabilities && hwp.capabilities.Sane()
          && hwp.capabilities.lowest < hwp.capabilities.highest
    }

    method FailSafeStable() returns (ok: bool)
      requires Stable()
      modifies this`logicalCpus, this`hwp, m`regs
      ensures hwp == old(hwp).(mode := hwp.mode, overrideActive := hwp.overrideActive,
                               failSafeActive := hwp.failSafeActive, failSafe := hwp.failSafe)
      ensures Stable()
      ensures m.regs == old(m.regs).(requests := m.regs.requests)
      ensures ok ==>
                hwp.ours && m.regs.hwpOn && m.regs.FailSafe(m.p) && hwp.mode == ModeInvalid && logicalCpus == m.p.cpus
      ensures (m.p.faithful && hwp.ours && hwp.on && CapabilitiesUsable()) ==> ok
    {
      ok := EnsureFailSafe();
    }

    method BootstrapHwp() returns (ok: bool)
      requires Stable() && captured && !hwp.captured && BootstrapReady()
      modifies this`logicalCpus, this`hwp, m`regs, m`log, m`enabled
      ensures Stable()
      ensures m.regs == old(m.regs).(hwpOn := m.regs.hwpOn, requests := m.regs.requests)
      ensures ok ==>
                hwp.ours && hwp.captured && CapabilitiesUsable() && logicalCpus == m.p.cpus && hwp.mode == ModeInvalid
      ensures ok ==> m.regs.hwpOn && m.regs.FailSafe(m.p) && m.regs.limit == expectedLimit
      ensures ok && m.p.packageSupported ==> m.regs.package == hwp.package
      ensures (m.p.faithful && m.p.hwpSupported && !old(hwp.on) && !old(m.regs).hwpOn && Countable()
               && LimitsVerified(expectedLimit) && m.regs.Guarded() && m.p.packageSupported
               && m.p.capabilities.Sane() && m.p.capabilities.lowest < m.p.capabilities.highest) ==> ok
    {
      ok := BootstrapEnable();
      if !ok {
        return;
      }
      ok := BootstrapCapture();
      if !ok {
        return;
      }
      ok := FailSafeStable();
      ok := ok && LimitsVerified(expectedLimit);
    }

    // ----- Restoration

    /** Writes the captured HWP state back; both register groups are attempted whatever the first one did. */
    method RestoreCapturedHwp() returns (ok: bool)
      requires Stable() && captured && !hwp.ours && hwp.captured
      modifies this`hwp, m`regs
      ensures hwp == old(hwp).(mode := hwp.mode, overrideActive := hwp.overrideActive)
      ensures Stable()
      ensures m.regs == old(m.regs).(package := m.regs.package, requests := m.regs.requests)
      ensures ok ==> m.regs.requests == saved.requests && m.regs.package == saved.package
      ensures m.p.faithful ==> ok
      ensures !hwp.overrideActive && hwp.mode == ModeInvalid
    {
      var packageRestored := true;
      if m.p.packageSupported {
        packageRestored := WritePackage(hwp.package);
      }
      var requestsRestored := WriteRequests(hwp.requests, hwp.present);
      hwp := hwp.(overrideActive := false, mode := ModeInvalid);
      ok := packageRestored && requestsRestored;
    }

    method RestoreHwp() returns (ok: bool)
      requires Stable() && captured
      modifies this`logicalCpus, this`hwp, m`regs
      ensures hwp == old(hwp).(mode := hwp.mode, overrideActive := hwp.overrideActive,
                               failSafeActive := hwp.failSafeActive, failSafe := hwp.failSafe)
      ensures Stable()
      ensures m.regs == old(m.regs).(package := m.regs.package, requests := m.regs.requests)
      ensures ok && hwp.ours ==> m.regs.hwpOn && m.regs.FailSafe(m.p)
      ensures ok && !hwp.ours ==> m.regs.requests == saved.requests && m.regs.package == saved.package
      ensures (m.p.faithful && (hwp.ours ==> hwp.on && CapabilitiesUsable())) ==> ok
      ensures hwp.captured && !hwp.ours ==> !hwp.overrideActive && hwp.mode == ModeInvalid
    {
      if hwp.ours {
        hwp := hwp.(overrideActive := false, mode := ModeInvalid, failSafeActive := false);
        ok := FailSafeStable();
        return;
      }
      if !hwp.captured {
        return true;
      }
      ok := RestoreCapturedHwp();
    }

    method RestoreGuard() returns (ok: bool)
      requires Stable() && captured
      modifies this`logicalCpus, m`regs, m`log, m`guardOrdered
      ensures Stable() && m.regs == old(m.regs).(control := m.regs.control)
      ensures forall c | 0 <= c < m.p.cpus :: m.guardOrdered[c]
      ensures ok <==> m.regs.Guarded()
      ensures ok ==> m.regs.control == saved.control
      ensures m.p.faithful ==> ok
    {
      ok := SetGuardAll(true);
      if ok {
        assert m.regs.control == saved.control;
      }
    }

    /** The captured limit goes back only when the HWP state has been verified. */
    method RestoreLimits(hwpRestored: bool) returns (ok: bool)
      requires Stable() && captured && forall c | 0 <= c < m.p.cpus :: m.guardOrdered[c]
      requires hwpRestored && hwp.ours ==> m.regs.hwpOn && m.regs.FailSafe(m.p)
      requires hwpRestored && !hwp.ours ==> m.regs.requests == saved.requests && m.regs.package == saved.package
      modifies m`regs, m`log
      ensures Stable() && m.regs == old(m.regs).(limit := m.regs.limit)
      ensures !hwpRestored ==> m.regs == old(m.regs)
      ensures ok ==> hwpRestored && m.regs.limit == saved.limit
      ensures (m.p.faithful && hwpRestored && !old(m.regs).limit.locked) ==> ok
    {
      ok := false;
      if hwpRestored && !m.regs.limit.locked {
        var value := capturedLimit.Unlocked();
        m.WriteLimit(value);
        ok := LimitsVerified(value);
      }
    }

    /** The registers are those the arm captured; an HWP this driver enabled stays on, in its fail-safe. */
    ghost predicate BackToSaved()
      reads this`saved, this`hwp, m`regs
    {
      RestoredTo(saved, m.regs, hwp.ours, m.p)
    }

    /** Guard first, then HWP, then the limit; every register group is attempted, but the limit goes back up only
        behind a verified HWP state. */
    method RestoreRegisters() returns (guardRestored: bool, hwpRestored: bool, limitsRestored: bool)
      requires Stable() && captured
      modifies this`logicalCpus, this`hwp, m`regs, m`log, m`guardOrdered
      ensures hwp == old(hwp).(mode := hwp.mode, overrideActive := hwp.overrideActive,
                               failSafeActive := hwp.failSafeActive, failSafe := hwp.failSafe)
      ensures Stable()
      ensures guardRestored ==> m.regs.Guarded()
      ensures hwpRestored && hwp.ours ==> m.regs.hwpOn && m.regs.FailSafe(m.p)
      ensures guardRestored && hwpRestored && limitsRestored ==> BackToSaved()
      ensures !hwpRestored ==> m.regs.limit == old(m.regs).limit
      ensures (m.p.faithful && (hwp.ours ==> hwp.on && CapabilitiesUsable())) ==>
                guardRestored && hwpRestored && limitsRestored
    {
      guardRestored := RestoreGuard();
      hwpRestored := RestoreHwp();
      limitsRestored := RestoreLimits(hwpRestored);
    }

    method SchedulePassiveGuard(now: nat)
      modifies this`timer
      ensures timer == if supported && state != Armed then Due(now + PASSIVE_POLL_NS) else old(timer)
    {
      if supported && state != Armed {
        timer := Due(now + PASSIVE_POLL_NS);
      }
    }

    method EndSession()
      requires Stable()
      modifies this`captured, this`expectedLimit, this`lastHeartbeat, this`hwp
      ensures hwp == old(hwp).(captured := hwp.captured, present := hwp.present)
      ensures Stable() && !captured && !hwp.captured && lastHeartbeat == 0
    {
      captured, hwp := false, hwp.(captured := false, present := seq(MAX_CPUS, i => false));
      expectedLimit := PowerLimit(0, false, false, 0, 0, false, false, 0, false);
      lastHeartbeat := 0;
    }

    method EnsurePassiveGuard() returns (ok: bool)
      requires Stable() && !captured
      modifies this`logicalCpus, m`regs, m`log, m`guardOrdered
      ensures Stable() && m.regs == old(m.regs).(control := m.regs.control)
      ensures ok ==> m.regs.Guarded() && Countable()
      ensures Countable() && (m.p.faithful || old(m.regs).Guarded()) ==> ok
      ensures old(m.regs).Guarded() ==> m.regs == old(m.regs)
      ensures m.log == old(m.log)
    {
      var readable, allEnabled, allDisabled := ReadPowerControl();
      ok := false;
      if readable {
        ok := allEnabled;
        if !allEnabled {
          ok := SetGuardAll(true);
        }
      }
    }

    method EndSessionAndConclude(reason: Reason, restored: bool, now: nat)
      requires Stable() && SequenceOk()
      requires restored ==> m.regs.Guarded() && (hwp.ours ==> m.regs.hwpOn && m.regs.FailSafe(m.p))
      modifies this`captured, this`expectedLimit, this`lastHeartbeat, this`timer, this`state, this`hwp
      ensures hwp == old(hwp).(captured := hwp.captured, present := hwp.present)
      ensures Valid() && state == if restored && reason == Requested then Passive else Failsafe
      ensures timer == if supported then Due(now + PASSIVE_POLL_NS) else Idle
    {
      EndSession();
      Conclude(reason, restored, now);
    }

    /** The common end of `restoreLocked`. */
    method Conclude(reason: Reason, restored: bool, now: nat)
      requires Stable() && SequenceOk() && !captured && !hwp.captured
      requires restored ==> m.regs.Guarded() && (hwp.ours ==> m.regs.hwpOn && m.regs.FailSafe(m.p))
      modifies this`timer, this`state
      ensures Valid() && state == if restored && reason == Requested then Passive else Failsafe
      ensures timer == if supported then Due(now + PASSIVE_POLL_NS) else Idle
    {
      timer := Idle;
      state := if restored && reason == Requested then Passive else Failsafe;
      SchedulePassiveGuard(now);
    }

    method RestoreSession(reason: Reason, now: nat) returns (restored: bool)
      requires Stable() && SequenceOk() && captured && supported
      modifies this`logicalCpus, this`captured, this`expectedLimit, this`lastHeartbeat, this`timer, this`state
      modifies this`hwp, m`regs, m`log, m`guardOrdered
      ensures hwp == old(hwp).(mode := hwp.mode, captured := hwp.captured, overrideActive := hwp.overrideActive,
                               failSafeActive := hwp.failSafeActive, failSafe := hwp.failSafe, present := hwp.present)
      ensures Valid() && state == if restored && reason == Requested then Passive else Failsafe
      ensures timer == if supported then Due(now + PASSIVE_POLL_NS) else Idle
      ensures restored ==> BackToSaved()
      ensures (m.p.faithful && (hwp.ours ==> hwp.on && CapabilitiesUsable())) ==> restored
    {
      var guardRestored, hwpRestored, limitsRestored := RestoreRegisters();
      restored := guardRestored && hwpRestored && limitsRestored;
      EndSessionAndConclude(reason, restored, now);
    }

    /** Writes land, and the guards and the fail-safe can be put back. */
    ghost predicate PassiveRestorable()
      reads this`supported, this`hwp
    {
      m.p.faithful && supported && Countable() && (hwp.ours ==> hwp.on && CapabilitiesUsable())
    }

    method RestorePassive(reason: Reason, now: nat) returns (restored: bool)
      requires Stable() && SequenceOk() && !captured && !hwp.captured
      modifies this`logicalCpus, this`timer, this`state, this`hwp, m`regs, m`log, m`guardOrdered
      ensures hwp == old(hwp).(mode := hwp.mode, overrideActive := hwp.overrideActive,
                               failSafeActive := hwp.failSafeActive, failSafe := hwp.failSafe)
      ensures Valid() && state == if restored && reason == Requested then Passive else Failsafe
      ensures timer == if supported then Due(now + PASSIVE_POLL_NS) else Idle
      ensures restored ==> supported && m.regs.Guarded() && (hwp.ours ==> m.regs.FailSafe(m.p))
      ensures PassiveRestorable() ==> restored
    {
      var guardRestored, hwpRestored := false, true;
      if supported {
        guardRestored := EnsurePassiveGuard();
      }
      if hwp.ours {
        hwpRestored := FailSafeStable();
      }
      restored := guardRestored && hwpRestored;
      Conclude(reason, restored, now);
    }

    /** `restoreLocked`: from any point of a locked section to a released, safe state. */
    method Restore(reason: Reason, now: nat) returns (restored: bool)
      requires Stable() && SequenceOk() && (hwp.captured ==> captured) && (captured ==> supported)
      modifies this`logicalCpus, this`captured, this`expectedLimit, this`lastHeartbeat, this`timer, this`state
      modifies this`hwp, m`regs, m`log, m`guardOrdered
      ensures hwp == old(hwp).(mode := hwp.mode, captured := hwp.captured, overrideActive := hwp.overrideActive,
                               failSafeActive := hwp.failSafeActive, failSafe := hwp.failSafe, present := hwp.present)
      ensures Valid() && state == if restored && reason == Requested then Passive else Failsafe
      ensures timer == if supported then Due(now + PASSIVE_POLL_NS) else Idle
      ensures old(captured) && restored ==> BackToSaved()
      ensures (m.p.faithful && old(captured) && (hwp.ours ==> hwp.on && CapabilitiesUsable())) ==> restored
      ensures !old(captured) && PassiveRestorable() ==> restored
    {
      if captured {
        restored := RestoreSession(reason, now);
      } else {
        restored := RestorePassive(reason, now);
      }
    }

    /** `restoreLocked` on a session that was set up completely, or on none. */
    method GiveUp(reason: Reason, now: nat) returns (restored: bool)
      requires Stable() && SequenceOk() && (hwp.captured ==> captured)
      requires captured ==> supported && hwp.on && CapabilitiesUsable()
      modifies this`logicalCpus, this`captured, this`expectedLimit, this`lastHeartbeat, this`timer, this`state
      modifies this`hwp, m`regs, m`log, m`guardOrdered
      ensures hwp == old(hwp).(mode := hwp.mode, captured := hwp.captured, overrideActive := hwp.overrideActive,
                               failSafeActive := hwp.failSafeActive, failSafe := hwp.failSafe, present := hwp.present)
      ensures Valid() && state == if restored && reason == Requested then Passive else Failsafe
      ensures timer == if supported then Due(now + PASSIVE_POLL_NS) else Idle
      ensures old(captured) && m.p.faithful ==> restored
      ensures old(captured) && restored ==> BackToSaved()
    {
      restored := Restore(reason, now);
    }

    /** `restoreLocked` at the end of a locked section that has changed nothing yet but the sequence number. */
    method Close(reason: Reason, now: nat) returns (restored: bool)
      requires Stable() && SequenceOk() && Settled() && (hwp.captured ==> captured) && (state == Armed ==> InForce())
      modifies this, m
      ensures Valid() && state == if restored && reason == Requested then Passive else Failsafe
      ensures timer == if supported then Due(now + PASSIVE_POLL_NS) else Idle
      ensures saved == old(saved) && hwp.ours == old(hwp.ours) && accepted == old(accepted) && m.asked == old(m.asked)
      ensures supported == old(supported)
      ensures old(captured) && m.p.faithful ==> restored
      ensures old(captured) && restored ==> BackToSaved()
    {
      restored := GiveUp(reason, now);
    }

    // ----- Arming

    predicate ValidRequest(r: LimitRequest, isArm: bool)
      reads this, m
    {
      var live := isArm && !captured;
      var ceiling1 := if live then RawToMw(m.regs.limit.pl1, m.p.powerExponent) else ceilingPl1Mw;
      var ceiling2 := if live then RawToMw(m.regs.limit.pl2, m.p.powerExponent) else ceilingPl2Mw;
      ValidLimitRequest(r, lastSequence, m.p.FloorMw(), MinimumNonZero(ceiling1, capabilityMaximumMw),
                        MinimumNonZero(ceiling2, capabilityMaximumMw))
    }

    /** `b` bounds `mw`, if it is a bound at all. */
    predicate Bounds(b: nat, mw: nat)
    {
      b != 0 ==> mw <= b
    }

    /** A request passes exactly when it is well formed with the one timeout and a known mode, newer than the last one,
        at least the floor, in order, and each of its limits is within every ceiling there is, of which there is one. */
    lemma ValidRequestExactly(r: LimitRequest, isArm: bool)
      ensures var live := isArm && !captured;
        var c1 := if live then RawToMw(m.regs.limit.pl1, m.p.powerExponent) else ceilingPl1Mw;
        var c2 := if live then RawToMw(m.regs.limit.pl2, m.p.powerExponent) else ceilingPl2Mw;
        ValidRequest(r, isArm) <==>
          && r.wellFormed && r.timeoutMs == 5000 && r.mode in {ReleaseMaximum, BootstrapAndRelease}
          && lastSequence < r.sequence && r.Reasonable(m.p)
          && Bounds(c1, r.pl1Mw) && Bounds(c2, r.pl2Mw)
          && Bounds(capabilityMaximumMw, r.pl1Mw) && Bounds(capabilityMaximumMw, r.pl2Mw)
          && (capabilityMaximumMw != 0 || (c1 != 0 && c2 != 0))
    {
    }

    /** Every entry point but the armed ones first looks for an HWP enabled behind the driver's back. */
    method RefreshHwp()
      requires Stable() && !captured && !hwp.captured
      modifies this`logicalCpus, this`hwp
      ensures hwp == old(hwp).(capabilities := hwp.capabilities, on := hwp.on, failSafe := hwp.failSafe)
      ensures Stable() && (m.p.hwpSupported && Countable() ==> hwp.on == m.regs.hwpOn)
    {
      if !hwp.on {
        var ready := InitializeHwp();
      }
    }

    /** The HWP state has been captured and every CPU's maximum is held below the highest level. */
    ghost predicate CaptureReady()
      reads this`logicalCpus, this`hwp, m`regs, m`guardOrdered
    {
      && m.Shaped() && hwp.captured && hwp.on && CapabilitiesUsable() && HwpCapture()
      && logicalCpus == m.p.cpus && hwp.mode == ModeInvalid
      && (m.p.packageSupported ==> m.regs.package == hwp.package)
    }

    /** No CPU may run up to the highest performance level. */
    ghost predicate AllRestricted()
      reads m`regs
    {
      forall c | 0 <= c < |m.regs.requests| ::
        Restricted(m.regs.requests[c], m.regs.package, m.p.capabilities, m.p.flexible)
    }

    /** What the registers and the request must be for an arm to be granted. */
    ghost predicate Grantable(r: LimitRequest)
      reads m`regs
    {
      && Countable() && m.p.hwpSupported && m.regs.Guarded()
      && !m.regs.limit.locked && m.regs.limit.pl1Enabled && m.regs.limit.pl2Enabled
      && if m.regs.hwpOn then r.mode == ReleaseMaximum && Capturable() && AllRestricted()
         else r.mode == BootstrapAndRelease
    }

    /** Checking the captured requests is checking the registers: the package request only matters to requests under
        package control. */
    lemma RestrictedAsCaptured(requests: seq<Request>, present: seq<bool>, package: Request)
      requires Capturable() && CaptureHolds(m.p, requests, present)
      requires forall c | 0 <= c < m.p.cpus :: requests[c] == m.regs.requests[c]
      requires m.p.packageSupported ==> package == m.regs.package
      ensures present[0]
      ensures AllRestricted() <==>
                forall c | 0 <= c < MAX_CPUS && present[c] ::
                  Restricted(requests[c], package, m.p.capabilities, m.p.flexible)
    {
    }

    method CaptureForArm() returns (ok: bool)
      requires Stable() && !captured && !hwp.captured && hwp.on
      modifies this`logicalCpus, this`hwp
      ensures hwp.ours == old(hwp).ours
      ensures hwp.failSafeActive == old(hwp).failSafeActive && hwp.failSafe == old(hwp).failSafe
      ensures Stable() && hwp.captured == ok
      ensures ok ==> CaptureReady() && forall c | 0 <= c < m.p.cpus :: hwp.requests[c] == m.regs.requests[c]
      ensures ok <==> Capturable() && AllRestricted()
    {
      ok := CaptureHwpState();
      if ok {
        RestrictedAsCaptured(hwp.requests, hwp.present, hwp.package);
        ok := MaximumRestricted(hwp.requests, hwp.present, hwp.package);
      }
      if !ok {
        hwp := hwp.(captured := false, present := seq(MAX_CPUS, i => false));
      }
    }

    /** The checks of `arm` on the hardware, before it takes anything over. */
    method Preflight(r: LimitRequest) returns (ok: bool)
      requires Stable() && !captured && !hwp.captured
      modifies this`logicalCpus, this`hwp
      ensures hwp.ours == old(hwp).ours && hwp.failSafeActive == old(hwp).failSafeActive
      ensures Stable() && (hwp.captured ==> ok)
      ensures ok <==> Grantable(r)
      ensures ok ==> !m.regs.limit.locked && m.regs.Guarded() && Countable() && m.p.hwpSupported
      ensures ok ==> hwp.on == hwp.captured == m.regs.hwpOn == (r.mode == ReleaseMaximum)
      ensures ok && hwp.on ==>
                CaptureReady() && forall c | 0 <= c < m.p.cpus :: hwp.requests[c] == m.regs.requests[c]
    {
      ok := false;
      var readable, allEnabled, allDisabled := ReadPowerControl();
      RefreshHwp();
      if m.regs.limit.locked || !readable || !allEnabled || !m.p.hwpSupported
         || r.mode != (if hwp.on then ReleaseMaximum else BootstrapAndRelease)
         || !m.regs.limit.pl1Enabled || !m.regs.limit.pl2Enabled {
        return;
      }
      ok := true;
      if hwp.on {
        ok := CaptureForArm();
      }
    }

    /** The request that took the registers over, or the update since, is `r`. */
    ghost predicate InCharge(r: LimitRequest)
      reads m`takeover
    {
      m.takeover.Taken? && m.takeover.current == r
    }

    /** Take the limits over: from here every failure goes through `Restore`. */
    method BeginSession(ghost r: LimitRequest)
      requires Stable() && !captured && Countable() && !m.regs.limit.locked && m.regs.Guarded() && r.Reasonable(m.p)
      requires hwp.captured ==> CaptureReady() && forall c | 0 <= c < m.p.cpus :: hwp.requests[c] == m.regs.requests[c]
      modifies this`capturedLimit, this`ceilingPl1Mw, this`ceilingPl2Mw, this`captured, this`saved, m`log
      modifies m`takeover, m`asked
      ensures Stable() && captured && saved == m.regs && capturedLimit == m.regs.limit
      ensures InCharge(r) && m.asked == old(m.asked) + {Begin(r)}
      ensures Ceilings()
    {
      m.BeginTakeover(r);
      capturedLimit, saved, captured := m.regs.limit, m.regs, true;
      ceilingPl1Mw := RawToMw(capturedLimit.pl1, m.p.powerExponent);
      ceilingPl2Mw := RawToMw(capturedLimit.pl2, m.p.powerExponent);
    }

    /** The two requested limits, encoded, stay below the captured fields. */
    ghost predicate Encodable(pl1Mw: nat, pl2Mw: nat)
      reads this`capturedLimit
    {
      && MwToRaw(pl1Mw, m.p.powerExponent) <= capturedLimit.pl1
      && MwToRaw(pl2Mw, m.p.powerExponent) <= capturedLimit.pl2
    }

    /** The limits of an arm that finds HWP already on. */
    method ReleaseLimits(r: LimitRequest) returns (ok: bool)
      requires Stable() && captured && CaptureReady() && InCharge(r)
      modifies this`expectedLimit, m`regs, m`log
      ensures Stable() && CaptureReady() && m.regs == old(m.regs).(limit := m.regs.limit)
      ensures ok ==> m.regs.limit == expectedLimit == r.Limit(m.p)
      ensures (m.p.faithful && old(ValidRequest(r, true)) && Encodable(r.pl1Mw, r.pl2Mw)) ==> ok
    {
      ok := false;
      if ValidRequest(r, true) {
        ok := InstallLimits(r.pl1Mw, r.pl2Mw);
      }
    }

    method InstallBootstrapLimit(r: LimitRequest) returns (ok: bool, bootstrapMw: nat)
      requires Stable() && captured && InCharge(r)
      modifies this`expectedLimit, m`regs, m`log
      ensures Stable() && m.regs == old(m.regs).(limit := m.regs.limit)
      ensures bootstrapMw == r.BootstrapMw(m.p)
      ensures ok ==> m.regs.limit == expectedLimit == r.BootstrapLimit(m.p) && BootstrapReady()
      ensures (m.p.faithful && old(ValidRequest(r, true)) && Encodable(r.pl1Mw, r.pl1Mw)) ==> ok
    {
      var conservative := if m.p.FloorMw() > 5000 then m.p.FloorMw() else 5000;
      bootstrapMw := if r.pl1Mw > conservative then conservative else r.pl1Mw;
      MwToRawMonotone(bootstrapMw, m.p.BootstrapLimitMw(), m.p.powerExponent);
      MwToRawMonotone(bootstrapMw, r.pl1Mw, m.p.powerExponent);
      ok := false;
      if ValidRequest(r, true) {
        ok := InstallLimits(bootstrapMw, bootstrapMw);
      }
    }

    /** The limits of an arm that has to turn HWP on: low first, HWP in its fail-safe, then the request. */
    method BootstrapLimits(r: LimitRequest) returns (ok: bool)
      requires Stable() && captured && !hwp.captured && InCharge(r)
      modifies this`logicalCpus, this`expectedLimit, this`hwp, m`regs, m`log, m`enabled
      ensures Stable() && m.regs.control == old(m.regs).control
      ensures ok ==> CaptureReady() && hwp.ours && m.regs.limit == expectedLimit == r.Limit(m.p)
      ensures (m.p.faithful && old(ValidRequest(r, true)) && Encodable(r.pl1Mw, r.pl1Mw) && Encodable(r.pl1Mw, r.pl2Mw)
               && m.p.hwpSupported && !old(hwp.on) && !old(m.regs).hwpOn && m.regs.Guarded() && m.p.packageSupported
               && m.p.capabilities.Sane() && m.p.capabilities.lowest < m.p.capabilities.highest) ==> ok
    {
      var bootstrapMw;
      ok, bootstrapMw := InstallBootstrapLimit(r);
      if !ok {
        return;
      }
      ok := BootstrapHwp();
      if ok && (bootstrapMw != r.pl1Mw || bootstrapMw != r.pl2Mw) {
        ok := InstallLimits(r.pl1Mw, r.pl2Mw);
      }
    }

    /** Raise the HWP maximum and, only behind its readback, clear the guards. */
    method Release(r: LimitRequest) returns (ok: bool)
      requires Stable() && captured && CaptureReady() && InCharge(r) && m.regs.limit == expectedLimit == r.Limit(m.p)
      modifies this`logicalCpus, this`hwp, m`regs, m`log, m`guardOrdered
      ensures hwp == old(hwp).(mode := hwp.mode, overrideActive := hwp.overrideActive,
                               failSafeActive := hwp.failSafeActive, expected := hwp.expected,
                               expectedPackage := hwp.expectedPackage)
      ensures Stable() && m.regs.limit == old(m.regs).limit
      ensures ok ==> Overriding() && forall c | 0 <= c < m.p.cpus :: !m.regs.control[c].guard
      ensures m.p.faithful && r.mode != ModeInvalid ==> ok
    {
      ok := ApplyHwpMaximum(r.mode);
      if ok {
        ok := ClearGuards(r);
      }
    }

    method ClearGuards(r: LimitRequest) returns (ok: bool)
      requires Stable() && captured && Overriding() && InCharge(r) && m.regs.limit == r.Limit(m.p)
      modifies this`logicalCpus, m`regs, m`log, m`guardOrdered
      ensures Stable() && m.regs == old(m.regs).(control := m.regs.control)
      ensures ok ==> Overriding() && forall c | 0 <= c < m.p.cpus :: !m.regs.control[c].guard
      ensures m.p.faithful ==> ok
    {
      ok := SetGuardAll(false);
    }

    /** Nothing but a lost write can make this takeover fail. */
    ghost predicate Willing(r: LimitRequest)
      reads this, m
    {
      && m.p.faithful && ValidRequest(r, true) && Encodable(r.pl1Mw, r.pl1Mw) && Encodable(r.pl1Mw, r.pl2Mw)
      && m.p.Usable() && m.regs.Guarded() && (!hwp.captured ==> !hwp.on && !m.regs.hwpOn)
    }

    /** Everything `arm` does to the hardware once it has taken the limits over. */
    method TakeOver(r: LimitRequest) returns (ok: bool)
      requires Stable() && captured && InCharge(r) && (hwp.captured ==> CaptureReady())
      modifies this`logicalCpus, this`expectedLimit, this`hwp, m`regs, m`log, m`guardOrdered, m`enabled
      ensures Stable()
      ensures ok ==> && Overriding() && CapabilitiesUsable() && m.regs.limit == expectedLimit
                     && expectedLimit == r.Limit(m.p)
                     && forall c | 0 <= c < m.p.cpus :: !m.regs.control[c].guard
      ensures old(Willing(r)) ==> ok
    {
      if hwp.captured {
        ok := ReleaseLimits(r);
      } else {
        ok := BootstrapLimits(r);
      }
      if ok {
        ok := Release(r);
      }
    }

    /** Every write lands, HWP is usable, and the unit is coarse enough for the limits in force. */
    ghost predicate Ideal(l: PowerLimit)
    {
      m.p.faithful && m.p.Usable() && m.p.powerExponent <= 9 && 0 < l.pl1 <= FIELD_MAX && 0 < l.pl2 <= FIELD_MAX
    }

    method Arm(r: LimitRequest, now: nat) returns (status: Status)
      requires Valid()
      modifies this, m
      ensures Valid() && m.asked <= old(m.asked) + {Begin(r)}
      ensures status == Success <==> state == Armed && !old(captured)
      ensures status == Success ==>
                && r.sequence > old(lastSequence) && lastHeartbeat == now && lastSequence == r.sequence
                && expectedLimit == r.Limit(m.p) && saved == old(m.regs) && r.Reasonable(m.p)
      ensures accepted == if status == Success then old(accepted) + [r.sequence] else old(accepted)
      ensures status == Unsupported <==> old(!supported)
      ensures status == Busy <==> old(supported && captured)
      ensures status == BadArgument <==> old(supported && !captured && !ValidRequest(r, true))
      ensures status in {Success, Error} <==> old(supported && !captured && ValidRequest(r, true) && Grantable(r))
      ensures status == NotPermitted <==> old(supported && !captured && ValidRequest(r, true) && !Grantable(r))
      ensures status !in {Success, Error} ==>
                m.regs == old(m.regs) && state == old(state) && lastHeartbeat == old(lastHeartbeat)
      ensures status == Error ==> state == Failsafe && !Ideal(old(m.regs).limit)
    {
      if !supported {
        return Unsupported;
      }
      if captured || state == Armed {
        return Busy;
      }
      if !ValidRequest(r, true) {
        return BadArgument;
      }
      status := ArmPassive(r, now);
    }

    method ArmPassive(r: LimitRequest, now: nat) returns (status: Status)
      requires Stable() && Settled() && !captured && !hwp.captured && supported && ValidRequest(r, true)
      modifies this, m
      ensures Valid() && status in {NotPermitted, Success, Error} && (status == Success <==> state == Armed)
      ensures m.asked <= old(m.asked) + {Begin(r)}
      ensures status == Success ==> && lastHeartbeat == now && lastSequence == r.sequence
                                    && expectedLimit == r.Limit(m.p) && saved == old(m.regs)
      ensures accepted == if status == Success then old(accepted) + [r.sequence] else old(accepted)
      ensures status == NotPermitted <==> !old(Grantable(r))
      ensures status == NotPermitted ==>
                m.regs == old(m.regs) && state == old(state) && lastHeartbeat == old(lastHeartbeat)
      ensures status == Error ==> state == Failsafe && !Ideal(old(m.regs).limit)
    {
      var ready := Preflight(r);
      if !ready {
        return NotPermitted;
      }
      var armed := EngageValid(r, now);
      status := if armed then Success else Error;
    }

    /** As `Willing`, before the limits are captured. */
    ghost predicate Welcome(r: LimitRequest)
      reads this, m
    {
      && m.p.faithful && !captured && ValidRequest(r, true) && m.p.Usable()
      && (!hwp.captured ==> !hwp.on && !m.regs.hwpOn)
      && MwToRaw(r.pl1Mw, m.p.powerExponent) <= m.regs.limit.pl1
      && MwToRaw(r.pl1Mw, m.p.powerExponent) <= m.regs.limit.pl2
      && MwToRaw(r.pl2Mw, m.p.powerExponent) <= m.regs.limit.pl2
    }

    /** A request that passes the milliwatt check encodes below the limits it was checked against, when the unit is
        coarse enough. */
    lemma ValidRequestEncodes(r: LimitRequest, isArm: bool, l: PowerLimit)
      requires ValidRequest(r, isArm) && l == if isArm && !captured then m.regs.limit else capturedLimit
      requires (isArm && !captured) || Ceilings()
      requires m.p.powerExponent <= 9 && 0 < l.pl1 <= FIELD_MAX && 0 < l.pl2 <= FIELD_MAX
      ensures MwToRaw(r.pl1Mw, m.p.powerExponent) <= l.pl1
      ensures MwToRaw(r.pl1Mw, m.p.powerExponent) <= l.pl2
      ensures MwToRaw(r.pl2Mw, m.p.powerExponent) <= l.pl2
    {
      var e := m.p.powerExponent;
      ReportedCeiling(l.pl1, r.pl1Mw, e);
      ReportedCeiling(l.pl2, r.pl2Mw, e);
      MwToRawMonotone(r.pl1Mw, r.pl2Mw, e);
    }

    lemma ReportedCeiling(raw: nat, mw: nat, e: nat)
      requires e <= 9 && 0 < raw <= FIELD_MAX && mw <= MinimumNonZero(RawToMw(raw, e), capabilityMaximumMw)
      ensures MwToRaw(mw, e) <= raw
    {
      EncodeUndoesDecode(raw, e);
      MwToRawMonotone(mw, RawToMw(raw, e), e);
    }

    /** A request that has passed every check. */
    method EngageValid(r: LimitRequest, now: nat) returns (ok: bool)
      requires Stable() && SequenceOk() && !captured && supported && ValidRequest(r, true)
      requires Countable() && !m.regs.limit.locked && m.regs.Guarded() && hwp.on == hwp.captured == m.regs.hwpOn
      requires hwp.captured ==> CaptureReady() && forall c | 0 <= c < m.p.cpus :: hwp.requests[c] == m.regs.requests[c]
      modifies this, m
      ensures Valid() && state == (if ok then Armed else Failsafe) && m.asked == old(m.asked) + {Begin(r)}
      ensures ok ==> && lastHeartbeat == now && lastSequence == r.sequence && saved == old(m.regs)
                     && expectedLimit == r.Limit(m.p)
      ensures accepted == if ok then old(accepted) + [r.sequence] else old(accepted)
      ensures Ideal(old(m.regs).limit) ==> ok
    {
      if Ideal(m.regs.limit) {
        ValidRequestEncodes(r, true, m.regs.limit);
      }
      ok := Engage(r, now);
    }

    /** Take over, or restore. */
    method Engage(r: LimitRequest, now: nat) returns (ok: bool)
      requires Stable() && SequenceOk() && !captured && supported
      requires r.timeoutMs == TIMEOUT_MS && r.sequence > lastSequence && r.Reasonable(m.p)
      requires Countable() && !m.regs.limit.locked && m.regs.Guarded()
      requires hwp.captured ==> CaptureReady() && forall c | 0 <= c < m.p.cpus :: hwp.requests[c] == m.regs.requests[c]
      modifies this, m
      ensures Valid() && state == (if ok then Armed else Failsafe) && m.asked == old(m.asked) + {Begin(r)}
      ensures ok ==> && lastHeartbeat == now && lastSequence == r.sequence && saved == old(m.regs)
                     && expectedLimit == r.Limit(m.p)
      ensures accepted == if ok then old(accepted) + [r.sequence] else old(accepted)
      ensures old(Welcome(r)) ==> ok
    {
      BeginSession(r);
      assert old(Welcome(r)) ==> Willing(r);
      ok := Attempt(r, now);
    }

    method Attempt(r: LimitRequest, now: nat) returns (ok: bool)
      requires Stable() && SequenceOk() && captured && Ceilings() && supported
      requires r.timeoutMs == TIMEOUT_MS && r.sequence > lastSequence
      requires InCharge(r) && (hwp.captured ==> CaptureReady())
      modifies this, m
      ensures Valid() && state == (if ok then Armed else Failsafe) && saved == old(saved) && m.asked == old(m.asked)
      ensures ok ==> lastHeartbeat == now && lastSequence == r.sequence && expectedLimit == r.Limit(m.p)
      ensures accepted == if ok then old(accepted) + [r.sequence] else old(accepted)
      ensures old(Willing(r)) ==> ok
    {
      ok := TakeOver(r);
      AcceptOrRestore(r, ok, now);
    }

    method AcceptOrRestore(r: LimitRequest, ok: bool, now: nat)
      requires Stable() && SequenceOk() && captured && Ceilings() && supported
      requires r.timeoutMs == TIMEOUT_MS && r.sequence > lastSequence
      requires ok ==> Overriding() && CapabilitiesUsable() && m.regs.limit == expectedLimit
      requires ok ==> forall c | 0 <= c < m.p.cpus :: !m.regs.control[c].guard
      modifies this, m
      ensures Valid() && state == (if ok then Armed else Failsafe) && saved == old(saved) && hwp.ours == old(hwp.ours)
      ensures m.asked == old(m.asked)
      ensures ok ==> lastHeartbeat == now && lastSequence == r.sequence && expectedLimit == old(expectedLimit)
      ensures accepted == if ok then old(accepted) + [r.sequence] else old(accepted)
      ensures !ok && m.p.faithful && old(hwp.ours ==> hwp.on && CapabilitiesUsable()) ==> BackToSaved()
    {
      if ok {
        Accept(r, now);
      } else {
        var _ := Restore(ReadbackMismatch, now);
      }
    }

    method Record(r: LimitRequest, now: nat)
      modifies this`state, this`lastSequence, this`accepted, this`watchdogTimeoutMs, this`lastHeartbeat, this`timer
      ensures state == Armed && watchdogTimeoutMs == r.timeoutMs && lastHeartbeat == now && timer == Due(now + POLL_NS)
      ensures lastSequence == r.sequence && accepted == old(accepted) + [r.sequence]
    {
      state, watchdogTimeoutMs, lastHeartbeat := Armed, r.timeoutMs, now;
      lastSequence, accepted := r.sequence, accepted + [r.sequence];
      timer := Due(now + POLL_NS);
    }

    method Accept(r: LimitRequest, now: nat)
      requires Stable() && SequenceOk() && captured && Ceilings() && supported
      requires r.timeoutMs == TIMEOUT_MS && r.sequence > lastSequence
      requires Overriding() && CapabilitiesUsable() && m.regs.limit == expectedLimit
      requires forall c | 0 <= c < m.p.cpus :: !m.regs.control[c].guard
      modifies this`state, this`lastSequence, this`accepted, this`watchdogTimeoutMs, this`lastHeartbeat, this`timer
      ensures Valid() && state == Armed && lastHeartbeat == now && lastSequence == r.sequence
      ensures accepted == old(accepted) + [r.sequence]
    {
      Record(r, now);
    }

    // ----- The other entry points

    /** Limits, guards and HWP read back as the last accepted request left them. */
    ghost predicate Readback()
      reads this`expectedLimit, this`logicalCpus, this`hwp, m`regs
    {
      && LimitsVerified(expectedLimit) && (forall c | 0 <= c < |m.regs.control| :: !m.regs.control[c].guard)
      && hwp.captured && hwp.overrideActive && hwp.mode != ModeInvalid && hwp.on && logicalCpus == m.p.cpus
      && Prefix(hwp.present, m.p.cpus) && OverrideHeld()
    }

    method VerifyArmedState() returns (ok: bool)
      requires Stable() && captured
      modifies this`logicalCpus
      ensures logicalCpus == m.p.cpus
      ensures ok <==> Readback()
    {
      var readable, allEnabled, allDisabled := ReadPowerControl();
      ok := readable && allDisabled && LimitsVerified(expectedLimit);
      if ok {
        ok := VerifyOverride();
      }
    }

    method Adjust(r: LimitRequest) returns (ok: bool)
      requires Stable() && captured && InForce()
      modifies this`logicalCpus, this`expectedLimit, m`regs, m`log, m`takeover, m`asked
      ensures Stable() && Overriding() && forall c | 0 <= c < m.p.cpus :: !m.regs.control[c].guard
      ensures ok ==> m.regs.limit == expectedLimit == r.Limit(m.p)
      ensures m.asked <= old(m.asked) + {Action.Adjust(r)}
      ensures old(ValidRequest(r, false)) && Ideal(capturedLimit) ==> ok
    {
      ok := VerifyArmedState();
      if ok {
        ok := InstallAdjusted(r);
      }
    }

    method InstallAdjusted(r: LimitRequest) returns (ok: bool)
      requires Stable() && captured && Overriding() && Ceilings()
      modifies this`expectedLimit, m`regs, m`log, m`takeover, m`asked
      ensures Stable() && m.regs == old(m.regs).(limit := m.regs.limit)
      ensures ok ==> m.regs.limit == expectedLimit == r.Limit(m.p)
      ensures m.asked <= old(m.asked) + {Action.Adjust(r)}
      ensures old(ValidRequest(r, false)) && Ideal(capturedLimit) ==> ok
    {
      ok := false;
      if ValidRequest(r, false) {
        if Ideal(capturedLimit) {
          ValidRequestEncodes(r, false, capturedLimit);
        }
        m.AdjustTakeover(r);
        ok := InstallLimits(r.pl1Mw, r.pl2Mw);
      }
    }

    method Update(r: LimitRequest, now: nat) returns (status: Status)
      requires Valid()
      modifies this, m
      ensures Valid() && saved == old(saved) && hwp.ours == old(hwp.ours)
      ensures m.asked <= old(m.asked) + {Action.Adjust(r)}
      ensures status == NotOpen <==> !old(captured)
      ensures status == NotOpen ==> m.regs == old(m.regs) && state == old(state)
      ensures status == Success ==> && state == Armed && lastHeartbeat == now && r.sequence > old(lastSequence)
                                    && expectedLimit == r.Limit(m.p) && r.Reasonable(m.p)
      ensures accepted == if status == Success then old(accepted) + [r.sequence] else old(accepted)
      ensures status == BadArgument <==> old(captured && (!ValidRequest(r, false) || r.mode != ReleaseMaximum))
      ensures status in {NotOpen, BadArgument, Success, Error} && (status == Error ==> !Ideal(saved.limit))
      ensures status !in {Success, NotOpen} ==> state == Failsafe && (m.p.faithful ==> BackToSaved())
    {
      if !captured || state != Armed {
        return NotOpen;
      }
      if !ValidRequest(r, false) || r.mode != ReleaseMaximum {
        var _ := Close(InvalidRequest, now);
        return BadArgument;
      }
      var ok := UpdateArmed(r, now);
      status := if ok then Success else Error;
    }

    /** A valid update of an armed driver. */
    method UpdateArmed(r: LimitRequest, now: nat) returns (ok: bool)
      requires Valid() && state == Armed && ValidRequest(r, false)
      modifies this, m
      ensures Valid() && saved == old(saved) && hwp.ours == old(hwp.ours)
      ensures m.asked <= old(m.asked) + {Action.Adjust(r)}
      ensures ok ==> state == Armed && lastHeartbeat == now && expectedLimit == r.Limit(m.p)
      ensures accepted == if ok then old(accepted) + [r.sequence] else old(accepted)
      ensures !ok ==> state == Failsafe && !Ideal(saved.limit) && (m.p.faithful ==> BackToSaved())
    {
      ok := Adjust(r);
      AcceptOrRestore(r, ok, now);
    }

    method RecordSequence(sequence: nat)
      requires SequenceOk() && sequence > lastSequence
      modifies this`lastSequence, this`accepted
      ensures SequenceOk() && lastSequence == sequence && accepted == old(accepted) + [sequence]
    {
      lastSequence, accepted := sequence, accepted + [sequence];
    }

    method Disarm(r: CommandRequest, now: nat) returns (status: Status)
      requires Valid()
      modifies this, m
      ensures Valid() && state != Armed && saved == old(saved) && m.asked == old(m.asked)
      ensures status == Success ==> state == Passive && r.sequence > old(lastSequence)
      ensures accepted == if r.wellFormed && r.sequence > old(lastSequence) then old(accepted) + [r.sequence]
                else old(accepted)
      ensures status in {Success, BadArgument, Error}
      ensures status == BadArgument <==> !r.wellFormed || r.sequence <= old(lastSequence)
      ensures status == Error && old(captured) ==> !m.p.faithful
      ensures old(captured) && (status == Success || m.p.faithful) ==> BackToSaved()
    {
      if r.wellFormed && r.sequence > lastSequence {
        RecordSequence(r.sequence);
        var restored := Close(Requested, now);
        status := if restored then Success else Error;
      } else {
        var _ := Close(InvalidRequest, now);
        status := BadArgument;
      }
    }

    /** A malformed command, or the client going away. */
    method Abandon(reason: Reason, now: nat)
      requires Valid() && reason in {InvalidRequest, ClientClosed}
      modifies this, m
      ensures Valid() && state == Failsafe && saved == old(saved) && accepted == old(accepted)
      ensures m.asked == old(m.asked)
      ensures old(captured) && m.p.faithful ==> BackToSaved()
    {
      var _ := Close(reason, now);
    }

    /** The status calls: they may find HWP enabled. */
    method Query()
      requires Valid()
      modifies this`logicalCpus, this`hwp
      ensures hwp == old(hwp).(capabilities := hwp.capabilities, on := hwp.on, failSafe := hwp.failSafe)
      ensures Valid()
      ensures state == Armed ==> hwp == old(hwp)
      ensures state != Armed && m.p.hwpSupported && Countable() ==> hwp.on == m.regs.hwpOn
    {
      if state != Armed && !hwp.on {
        RefreshHwp();
      }
    }

    /** The armed half of the watchdog: give up when the heartbeat is old or the readback is wrong. */
    method WatchdogArmed(now: nat)
      requires Valid() && state == Armed
      modifies this, m
      ensures Valid() && saved == old(saved) && hwp.ours == old(hwp.ours) && accepted == old(accepted)
      ensures m.asked == old(m.asked) && timer.Due? && timer.at >= now + POLL_NS
      ensures state == Armed ==> && m.regs == old(m.regs) && lastHeartbeat == old(lastHeartbeat)
                                 && timer == Due(now + 250_000_000)
      ensures state == Armed <==> old(lastHeartbeat) != 0 && Young(old(lastHeartbeat), now)
      ensures state != Armed && m.p.faithful ==> BackToSaved()
    {
      if lastHeartbeat == 0 || now < lastHeartbeat || WatchdogExpired(now - lastHeartbeat, watchdogTimeoutMs) {
        var _ := Close(Watchdog, now);
      } else {
        WatchdogYoung(now);
      }
    }

    /** The heartbeat is young: check the hardware. */
    method WatchdogYoung(now: nat)
      requires Stable() && Settled() && state == Armed && hwp.on && CapabilitiesUsable() && logicalCpus == m.p.cpus
      requires now < lastHeartbeat + TIMEOUT_MS * 1_000_000 && (Readback() ==> InForce())
      modifies this, m
      ensures Valid() && saved == old(saved) && hwp.ours == old(hwp.ours) && accepted == old(accepted)
      ensures m.asked == old(m.asked) && timer.Due? && timer.at >= now + POLL_NS
      ensures state == (if old(Readback()) then Armed else Failsafe)
      ensures state == Armed ==>
                m.regs == old(m.regs) && lastHeartbeat == old(lastHeartbeat) && timer == Due(now + POLL_NS)
      ensures state != Armed && m.p.faithful ==> BackToSaved()
    {
      var verified := VerifyArmedState();
      if verified {
        timer := Due(now + POLL_NS);
      } else {
        var _ := GiveUp(ReadbackMismatch, now);
      }
    }

    /** The passive half: keep the guards and the fail-safe in place. */
    method WatchdogPassive(now: nat)
      requires Valid() && state != Armed && supported
      modifies this`logicalCpus, this`state, this`timer, this`hwp, m`regs, m`log, m`guardOrdered
      ensures hwp == old(hwp).(capabilities := hwp.capabilities, mode := hwp.mode, on := hwp.on,
                               overrideActive := hwp.overrideActive, failSafeActive := hwp.failSafeActive,
                               failSafe := hwp.failSafe)
      ensures Valid() && state in {old(state), Failsafe} && timer == Due(now + 1_000_000_000)
      ensures PassiveRestorable() ==> state == old(state)
    {
      RefreshHwp();
      var safe := KeepSafe();
      ReportPassive(safe, now);
    }

    method KeepSafe() returns (safe: bool)
      requires Stable() && !captured && !hwp.captured
      modifies this`logicalCpus, this`hwp, m`regs, m`log, m`guardOrdered
      ensures hwp == old(hwp).(mode := hwp.mode, overrideActive := hwp.overrideActive,
                               failSafeActive := hwp.failSafeActive, failSafe := hwp.failSafe)
      ensures Stable() && (safe ==> m.regs.Guarded() && (hwp.ours ==> m.regs.hwpOn && m.regs.FailSafe(m.p)))
      ensures m.p.faithful && Countable() && (hwp.ours ==> hwp.on && CapabilitiesUsable()) ==> safe
    {
      var guardSafe := EnsurePassiveGuard();
      var hwpSafe := !hwp.ours;
      if hwp.ours {
        hwpSafe := VerifyFailSafe();
        if !hwpSafe {
          hwpSafe := FailSafeStable();
        }
      }
      safe := guardSafe && hwpSafe;
    }

    method ReportPassive(safe: bool, now: nat)
      requires Stable() && SequenceOk() && supported && !captured && !hwp.captured && state != Armed
      requires safe ==> m.regs.Guarded() && (hwp.ours ==> m.regs.hwpOn && m.regs.FailSafe(m.p))
      modifies this`state, this`timer
      ensures Valid() && state == (if safe then old(state) else Failsafe) && timer == Due(now + PASSIVE_POLL_NS)
    {
      if !safe {
        state := Failsafe;
      }
      timer := Due(now + PASSIVE_POLL_NS);
    }

    method WatchdogFired(now: nat)
      requires Valid()
      modifies this, m
      ensures Valid() && accepted == old(accepted) && m.asked == old(m.asked)
      ensures timer.Due? ==> timer.at >= now + POLL_NS
      ensures state == Armed ==> && old(state) == Armed && m.regs == old(m.regs)
                                 && lastHeartbeat == old(lastHeartbeat) && Young(lastHeartbeat, now)
    {
      if captured && state == Armed {
        WatchdogArmed(now);
      } else if supported {
        WatchdogPassive(now);
      } else {
        timer := Idle;
      }
    }

    /** With an ideal timer, time passes up to `t` and the watchdog fires at each due time on the way. */
    method AdvanceTo(t: nat)
      requires Valid()
      modifies this, m
      ensures Valid() && accepted == old(accepted) && m.asked == old(m.asked) && (timer.Due? ==> timer.at > t)
      ensures state == Armed ==> old(state) == Armed && lastHeartbeat == old(lastHeartbeat)
      ensures state == Armed ==> t < lastHeartbeat + TIMEOUT_MS * 1_000_000 + POLL_NS
    {
      while timer.Due? && timer.at <= t
        invariant Valid() && accepted == old(accepted) && m.asked == old(m.asked)
        invariant state == Armed ==> old(state) == Armed && lastHeartbeat == old(lastHeartbeat)
        decreases if timer.Due? && timer.at <= t then t - timer.at + 1 else 0
      {
        WatchdogFired(timer.at);
      }
    }
  }

  datatype Event = Event(at: nat, command: Command)

  /** What a command can bring into force. */
  ghost function Asks(c: Command): set<Action> {
    match c
    case ArmCommand(r) => {Begin(r)}
    case UpdateCommand(r) => {Action.Adjust(r)}
    case _ => {}
  }

  /** What takes the lock: a client, or the watchdog, which may come late, and also early when it was already waiting
      for the lock as an update set it again. */
  datatype Happening = Client(event: Event) | Tick(now: nat)

  /** The driver's heartbeat: whether it is armed, when it last heard from its client, and the numbers accepted. */
  datatype Heartbeat = Heartbeat(armed: bool, at: nat, accepted: seq<nat>)

  ghost function HeartbeatOf(d: Driver): Heartbeat
    reads d`state, d`lastHeartbeat, d`accepted
  {
    Heartbeat(d.state == Armed, d.lastHeartbeat, d.accepted)
  }

  /** Command `c` carries sequence number `n` and a heartbeat. */
  predicate Carries(c: Command, n: nat) {
    match c
    case ArmCommand(r) => r.sequence == n
    case UpdateCommand(r) => r.sequence == n
    case _ => false
  }

  /** `b` is the heartbeat of event `e`, after `before`. */
  ghost predicate BeatOf(e: Event, before: Heartbeat, b: Heartbeat) {
    && b.at == e.at && |b.accepted| == |before.accepted| + 1 && b.accepted[..|before.accepted|] == before.accepted
    && Carries(e.command, b.accepted[|before.accepted|])
  }

  /** How one happening may change the heartbeat of a driver that is armed afterwards. */
  ghost predicate BeatStep(h: Happening, before: Heartbeat, b: Heartbeat) {
    b.armed ==>
      match h
      case Client(e) => b == before || BeatOf(e, before, b)
      case Tick(now) => b == before && Young(b.at, now)
  }

  /** The ticks among the first `n` happenings from `from` on all came before the heartbeat timed out. */
  ghost predicate TicksYoung(hs: seq<Happening>, from: nat, n: nat, beat: nat)
    requires n <= |hs|
  {
    forall i | from <= i < n && hs[i].Tick? :: Young(beat, hs[i].now)
  }

  /** Happening `k` is the last heartbeat among the first `n`: its number is the last one accepted. */
  ghost predicate LastBeat(hs: seq<Happening>, k: nat, n: nat, b: Heartbeat)
    requires n <= |hs|
  {
    && k < n && hs[k].Client? && hs[k].event.at == b.at
    && b.accepted != [] && Carries(hs[k].event.command, b.accepted[|b.accepted| - 1])
    && TicksYoung(hs, k + 1, n, b.at)
  }

  /** An armed driver got its heartbeat from one of the first `n` happenings, or was armed before them. */
  ghost predicate BeatKept(hs: seq<Happening>, n: nat, before: Heartbeat, b: Heartbeat)
    requires n <= |hs|
  {
    b.armed ==> (b == before && TicksYoung(hs, 0, n, b.at)) || exists k :: LastBeat(hs, k, n, b)
  }

  lemma BeatKeptOn(hs: seq<Happening>, n: nat, before: Heartbeat, b: Heartbeat, next: Heartbeat)
    requires n < |hs| && BeatKept(hs, n, before, b) && BeatStep(hs[n], b, next)
    ensures BeatKept(hs, n + 1, before, next)
  {
    if next.armed {
      if next != b {
        assert LastBeat(hs, n, n + 1, next);
      } else if !(b == before && TicksYoung(hs, 0, n, b.at)) {
        var k :| LastBeat(hs, k, n, b);
        assert LastBeat(hs, k, n + 1, next);
      }
    }
  }

  /** One client event under the lock. */
  method Dispatch(d: Driver, e: Event)
    requires d.Valid()
    modifies d, d.m
    ensures d.Valid() && d.m.asked <= old(d.m.asked) + Asks(e.command)
    ensures BeatStep(Client(e), old(HeartbeatOf(d)), HeartbeatOf(d))
  {
    match e.command
    case ArmCommand(r) => var _ := d.Arm(r, e.at);
    case UpdateCommand(r) => var _ := d.Update(r, e.at);
    case DisarmCommand(r) => var _ := d.Disarm(r, e.at);
    case MalformedCommand => d.Abandon(InvalidRequest, e.at);
    case Disconnect => d.Abandon(ClientClosed, e.at);
    case StatusCommand => d.Query();
  }

  ghost function AsksIn(h: Happening): set<Action> {
    if h.Client? then Asks(h.event.command) else {}
  }

  /** One locked section. */
  method Happen(d: Driver, h: Happening)
    requires d.Valid()
    modifies d, d.m
    ensures d.Valid() && d.m.asked <= old(d.m.asked) + AsksIn(h)
    ensures BeatStep(h, old(HeartbeatOf(d)), HeartbeatOf(d))
  {
    match h
    case Client(e) => Dispatch(d, e);
    case Tick(now) => d.WatchdogFired(now);
  }

  /** Every run: any machine that may lose any write, any client, any ticks, at any times. */
  method Run(d: Driver, hs: seq<Happening>)
    requires d.Valid()
    modifies d, d.m
    ensures d.Valid()
    ensures forall i | 0 <= i < |d.m.log| :: Permitted(d.m.log, i, d.m.p)
    ensures forall i | 0 <= i < |d.m.log| && (d.m.log[i].action.Begin? || d.m.log[i].action.Adjust?) ::
              || d.m.log[i].action in old(d.m.asked)
              || exists k :: 0 <= k < |hs| && d.m.log[i].action in AsksIn(hs[k])
    ensures d.m.regs.limit.pl1 <= d.m.p.boot.pl1 && d.m.regs.limit.pl2 <= d.m.p.boot.pl2
    ensures d.m.regs.limit.locked ==> d.m.p.boot.locked
    ensures d.captured <==> d.state == Armed
    ensures d.supported && d.state == Passive ==> d.m.regs.Guarded()
    ensures d.supported ==> d.timer.Due?
    ensures forall i, j | 0 <= i < j < |d.accepted| :: d.accepted[i] < d.accepted[j]
    ensures BeatKept(hs, |hs|, old(HeartbeatOf(d)), HeartbeatOf(d))
  {
    for i := 0 to |hs|
      invariant d.Valid()
      invariant forall a | a in d.m.asked :: a in old(d.m.asked) || exists k :: 0 <= k < i && a in AsksIn(hs[k])
      invariant BeatKept(hs, i, old(HeartbeatOf(d)), HeartbeatOf(d))
    {
      ghost var before := HeartbeatOf(d);
      Happen(d, hs[i]);
      BeatKeptOn(hs, i, old(HeartbeatOf(d)), before, HeartbeatOf(d));
    }
    AskedEverywhere(d.m.log);
  }

  function Clients(events: seq<Event>): seq<Happening> {
    seq(|events|, i requires 0 <= i < |events| => Client(events[i]))
  }

  /** The ticks due by the time of an event, and the event. */
  method DispatchOnTime(d: Driver, e: Event)
    requires d.Valid()
    modifies d, d.m
    ensures d.Valid() && BeatStep(Client(e), old(HeartbeatOf(d)), HeartbeatOf(d))
  {
    d.AdvanceTo(e.at);
    Dispatch(d, e);
  }

  /** The events, with the ticks due before each. */
  method RunOnTime(d: Driver, events: seq<Event>)
    requires d.Valid()
    modifies d, d.m
    ensures d.Valid() && BeatKept(Clients(events), |events|, old(HeartbeatOf(d)), HeartbeatOf(d))
  {
    for i := 0 to |events|
      invariant d.Valid() && BeatKept(Clients(events), i, old(HeartbeatOf(d)), HeartbeatOf(d))
    {
      ghost var before := HeartbeatOf(d);
      DispatchOnTime(d, events[i]);
      BeatKeptOn(Clients(events), i, old(HeartbeatOf(d)), before, HeartbeatOf(d));
    }
  }

  /** With an ideal timer the ticks come when they are due: an armed driver's heartbeat is that of its last accepted arm
      or update, and is never 5.25 s old. */
  method PunctualRun(d: Driver, events: seq<Event>, until: nat)
    requires d.Valid()
    modifies d, d.m
    ensures d.Valid()
    ensures d.state == Armed ==> until < d.lastHeartbeat + 5_250_000_000
    ensures BeatKept(Clients(events), |events|, old(HeartbeatOf(d)), HeartbeatOf(d))
  {
    RunOnTime(d, events);
    d.AdvanceTo(until);
  }

  datatype SessionEvent = Adjusted(request: LimitRequest) | Polled

  /** The ways a client ends a session. */
  datatype Exit = Leave(request: CommandRequest) | Misuse | HangUp

  /** Updates and polls until the driver gives up or the client leaves: the registers are back either way. */
  method Serve(d: Driver, events: seq<SessionEvent>, exit: Exit, start: nat, times: seq<nat>)
    requires d.Valid() && d.m.p.faithful && |times| == |events| && d.state == Armed
    modifies d, d.m
    ensures d.Valid() && d.BackToSaved() && d.saved == old(d.saved)
  {
    var i := 0;
    while i < |events| && d.state == Armed
      invariant 0 <= i <= |events| && d.Valid() && d.saved == old(d.saved)
      invariant d.state != Armed ==> d.BackToSaved()
    {
      match events[i] {
        case Adjusted(r) => var _ := d.Update(r, times[i]);
        case Polled => d.WatchdogArmed(times[i]);
      }
      i := i + 1;
    }
    if d.state == Armed {
      match exit {
        case Leave(r) => var _ := d.Disarm(r, start);
        case Misuse => d.Abandon(InvalidRequest, start);
        case HangUp => d.Abandon(ClientClosed, start);
      }
    }
  }

  /** On hardware that keeps every write: arm, any updates and watchdog polls, then any way out. If the arm succeeds,
      the session ends with exactly the registers it started from; where this driver had to turn HWP on, HWP stays on
      and every CPU holds a request that the next arm accepts as restricted. */
  method Session(d: Driver, arm: LimitRequest, events: seq<SessionEvent>, exit: Exit, start: nat, times: seq<nat>)
    returns (armed: bool)
    requires d.Valid() && d.m.p.faithful && |times| == |events|
    modifies d, d.m
    ensures d.Valid()
    ensures d.Ideal(old(d.m.regs).limit) ==>
              (armed <==> old(d.supported && !d.captured && d.ValidRequest(arm, true) && d.Grantable(arm)))
    ensures armed && !d.hwp.ours ==> d.m.regs == old(d.m.regs)
    ensures armed && d.hwp.ours ==>
              && d.m.regs == old(d.m.regs).(hwpOn := true, requests := d.m.regs.requests)
              && forall c | 0 <= c < d.m.p.cpus ::
                   && d.m.regs.requests[c] == d.m.p.FailSafe()
                   && Restricted(d.m.regs.requests[c], d.m.regs.package, d.m.p.capabilities, d.m.p.flexible)
                   && Frugal(d.m.regs.requests[c], d.m.p.capabilities, d.m.p.eppSupported)
  {
    ghost var before := d.m.regs;
    var status := d.Arm(arm, start);
    armed := status == Success;
    if !armed {
      return;
    }
    Serve(d, events, exit, start, times);
    FailSafeIsRestricted(d.m.p.capabilities, d.m.p.eppSupported, d.m.regs.package, d.m.p.flexible);
    FailSafeIsFrugal(d.m.p.capabilities, d.m.p.eppSupported);
  }
}
