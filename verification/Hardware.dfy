/** The registers the driver owns, with writes that may be lost, and the two rendezvous broadcasts.

    A write either lands or leaves the register as it was; reads are truthful; only the driver writes. The machine
    records every write that matters for safety in a ghost log, together with the registers just before it and the
    takeover it belongs to. Nothing in an entry is chosen by the writer but the value written. */
module Hardware {
  import opened RaplCodec
  import opened HwpCodec

  const MAX_CPUS := 64

  /** MSR_POWER_CTL (0x1fc): bit 0 is the bidirectional PROCHOT guard. */
  datatype PowerControl = PowerControl(guard: bool, rest: nat)

  /** What never changes between two resets. */
  datatype Platform = Platform(
    cpus: nat,
    faithful: bool,             // every write lands
    boot: PowerLimit,           // 0x610 when the driver started
    powerExponent: nat,         // 0x606
    thermalRaw: nat, minimumRaw: nat, maximumRaw: nat,   // 0x614
    knownCpu: bool,
    hwpSupported: bool, eppSupported: bool, packageSupported: bool, flexible: bool,   // CPUID leaf 6
    capabilities: Capabilities) // 0x771
  {
    function FloorMw(): nat {
      var mw := RawToMw(minimumRaw, powerExponent);
      if mw == 0 then 1000 else mw
    }

    /** The HWP enable bit may only be written below this. */
    function BootstrapLimitMw(): nat {
      if FloorMw() > 5000 then FloorMw() else 5000
    }

    /** HWP can be turned on and held in its fail-safe, and requests under package control can be honoured. */
    predicate Usable() {
      hwpSupported && packageSupported && capabilities.Sane() && capabilities.lowest < capabilities.highest
    }

    function FailSafe(): Request {
      FailSafeRequest(capabilities, eppSupported)
    }
  }

  datatype Registers = Registers(
    limit: PowerLimit,            // 0x610
    hwpOn: bool,                  // 0x770
    package: Request,             // 0x772
    control: seq<PowerControl>,   // 0x1fc, per CPU
    requests: seq<Request>)       // 0x774, per CPU
  {
    predicate Guarded() {
      forall c | 0 <= c < |control| :: control[c].guard
    }

    predicate FailSafe(p: Platform) {
      forall c | 0 <= c < |requests| :: requests[c] == p.FailSafe()
    }

    /** Every CPU may run up to the highest performance level. */
    predicate Released(p: Platform) {
      forall c | 0 <= c < |requests| :: requests[c].EffectiveMaximum(package, p.flexible) == p.capabilities.highest
    }
  }

  datatype GuardOp = ReadGuard | SetGuard | ClearGuard {
    function Apply(v: PowerControl): PowerControl {
      match this
      case ReadGuard => v
      case SetGuard => v.(guard := true)
      case ClearGuard => v.(guard := false)
    }
  }

  datatype HwpMode = ModeInvalid | ReleaseMaximum | BootstrapAndRelease

  /** What a client asks for with an arm or an update. */
  datatype LimitRequest = LimitRequest(
    wellFormed: bool,   // present, right version, right size
    timeoutMs: nat, mode: HwpMode, sequence: nat, pl1Mw: nat, pl2Mw: nat)
  {
    /** At least the smallest power of the package, and a short-term limit that is not below the long-term one. */
    predicate Reasonable(p: Platform) {
      p.FloorMw() <= pl1Mw <= pl2Mw
    }

    /** The limit register this request asks for: both fields encoded, everything else as at boot. */
    function Limit(p: Platform): PowerLimit {
      p.boot.WithLimits(MwToRaw(pl1Mw, p.powerExponent), MwToRaw(pl2Mw, p.powerExponent))
    }

    /** The milliwatts an arm starts from when it has to turn HWP on. */
    function BootstrapMw(p: Platform): nat {
      if pl1Mw > p.BootstrapLimitMw() then p.BootstrapLimitMw() else pl1Mw
    }

    function BootstrapLimit(p: Platform): PowerLimit {
      var raw := MwToRaw(BootstrapMw(p), p.powerExponent);
      p.boot.WithLimits(raw, raw)
    }
  }

  /** The floor is the smallest power of 0x614, or a watt where it has none. */
  lemma FloorIs(p: Platform)
    ensures RawToMw(p.minimumRaw, p.powerExponent) == 0 ==> p.FloorMw() == 1000
    ensures RawToMw(p.minimumRaw, p.powerExponent) > 0 ==> p.FloorMw() == RawToMw(p.minimumRaw, p.powerExponent)
  {
  }

  /** The low limit is five watts, or the floor where that is more, or the request where that is less. */
  lemma LowLimitIs(r: LimitRequest, p: Platform)
    ensures p.BootstrapLimitMw() >= 5000 && p.BootstrapLimitMw() >= p.FloorMw()
    ensures p.BootstrapLimitMw() in {5000, p.FloorMw()}
    ensures r.BootstrapMw(p) <= r.pl1Mw && r.BootstrapMw(p) <= p.BootstrapLimitMw()
    ensures r.BootstrapMw(p) in {r.pl1Mw, p.BootstrapLimitMw()}
  {
  }

  /** The register a request asks for has its own field for each of its limits, both enabled and clamped, no lock, and
      the windows found at boot. */
  lemma LimitIs(r: LimitRequest, p: Platform)
    ensures var l := r.Limit(p);
      && l.pl1 == MwToRaw(r.pl1Mw, p.powerExponent) && l.pl2 == MwToRaw(r.pl2Mw, p.powerExponent)
      && l.pl1Enabled && l.pl2Enabled && l.pl1Clamped && l.pl2Clamped && !l.locked
      && l.window1 == p.boot.window1 && l.window2 == p.boot.window2
    ensures var l := r.BootstrapLimit(p);
      && l.pl1 == l.pl2 == MwToRaw(r.BootstrapMw(p), p.powerExponent)
      && l.pl1Enabled && l.pl2Enabled && l.pl1Clamped && l.pl2Clamped && !l.locked
      && l.window1 == p.boot.window1 && l.window2 == p.boot.window2
  {
  }

  /** The log's entries: writes to the registers, and the two moments at which a request comes into force. */
  datatype Action =
    | Begin(request: LimitRequest)    // an arm has passed its checks and takes the registers over
    | Adjust(request: LimitRequest)   // an update has passed its checks
    | LimitWrite(value: PowerLimit)
    | EnableHwp
    | ClearGuardOn(cpu: nat)

  /** What the machine records of an action: the registers just before it, and the last guard value each CPU was told
      to take, whether or not that write landed. */
  datatype Entry = Entry(action: Action, before: Registers, guardOrdered: seq<bool>)

  /** The last arm that took the registers over, the request in force since, and the registers it found. */
  datatype Takeover = NotTaken | Taken(arm: LimitRequest, current: LimitRequest, found: Registers)

  function NextTakeover(t: Takeover, e: Entry): Takeover {
    match e.action
    case Begin(r) => Taken(r, r, e.before)
    case Adjust(r) => if t.Taken? then t.(current := r) else t
    case _ => t
  }

  ghost function TakeoverAfter(log: seq<Entry>): Takeover {
    if log == [] then NotTaken else NextTakeover(TakeoverAfter(log[..|log| - 1]), log[|log| - 1])
  }

  /** Whether the HWP enable bit was ever written. */
  ghost function EnabledAfter(log: seq<Entry>): bool {
    log != [] && (EnabledAfter(log[..|log| - 1]) || log[|log| - 1].action.EnableHwp?)
  }

  /** The requests that came into force. */
  ghost function AskedIn(log: seq<Entry>): set<Action> {
    if log == [] then {}
    else
      var a := log[|log| - 1].action;
      AskedIn(log[..|log| - 1]) + if a.Begin? || a.Adjust? then {a} else {}
  }

  /** A limit within the boot values, written to an unlocked register. */
  ghost predicate WithinBounds(value: PowerLimit, before: Registers, p: Platform) {
    && !before.limit.locked && !value.locked
    && value.pl1 <= p.boot.pl1 && value.pl2 <= p.boot.pl2 && value.SameWindows(p.boot)
  }

  /** The limit asked for by the request in force, or the low one its arm starts from; never above the one found. */
  ghost predicate AskedFor(value: PowerLimit, t: Takeover, p: Platform)
    requires t.Taken?
  {
    && (value == t.current.Limit(p) || value == t.current.BootstrapLimit(p))
    && value.pl1 <= t.found.limit.pl1 && value.pl2 <= t.found.limit.pl2
  }

  /** The limit the takeover found may go back: every CPU was told to guard, and the HWP state is the one found or, if
      the driver turned HWP on, the fail-safe. */
  ghost predicate GivenBack(value: PowerLimit, e: Entry, t: Takeover, enabled: bool, p: Platform)
    requires t.Taken?
  {
    && value == t.found.limit
    && (forall c | 0 <= c < |e.guardOrdered| :: e.guardOrdered[c])
    && if enabled then e.before.hwpOn && e.before.FailSafe(p)
       else e.before == t.found.(limit := e.before.limit, control := e.before.control)
  }

  /** HWP may be turned on behind the low limit of the request in force, with every guard on. */
  ghost predicate MayEnable(before: Registers, t: Takeover, p: Platform) {
    && t.Taken? && before.limit == t.current.BootstrapLimit(p)
    && before.limit.pl1 == before.limit.pl2 <= MwToRaw(p.BootstrapLimitMw(), p.powerExponent)
    && before.limit.pl1Enabled && before.limit.pl2Enabled && !before.limit.locked
    && before.Guarded()
  }

  /** A guard may be cleared behind the limit of the request in force and a released HWP maximum. */
  ghost predicate MayClear(before: Registers, t: Takeover, p: Platform) {
    t.Taken? && before.limit == t.current.Limit(p) && before.hwpOn && before.Released(p)
  }

  /** The safety rule of an entry in the takeover it falls into. */
  ghost predicate Rule(e: Entry, t: Takeover, enabled: bool, p: Platform) {
    match e.action
    case Begin(r) => r.Reasonable(p) && !e.before.limit.locked && e.before.Guarded()
    case Adjust(r) => r.Reasonable(p) && t.Taken?
    case LimitWrite(value) =>
      && t.Taken? && WithinBounds(value, e.before, p)
      && (AskedFor(value, t, p) || GivenBack(value, e, t, enabled, p))
    case EnableHwp => MayEnable(e.before, t, p)
    case ClearGuardOn(_) => MayClear(e.before, t, p)
  }

  /** Entry `i` keeps the rule, given the entries before it. */
  ghost predicate Permitted(log: seq<Entry>, i: nat, p: Platform)
    requires i < |log|
  {
    Rule(log[i], TakeoverAfter(log[..i]), EnabledAfter(log[..i]), p)
  }

  /** Every entry of the log is permitted, and the rest is what the log says. */
  ghost predicate Chronicle(log: seq<Entry>, p: Platform, takeover: Takeover, enabled: bool, asked: set<Action>) {
    && (forall i | 0 <= i < |log| :: Permitted(log, i, p))
    && takeover == TakeoverAfter(log) && enabled == EnabledAfter(log) && asked == AskedIn(log)
  }

  /** One more entry that keeps its rule. */
  lemma Append(log: seq<Entry>, e: Entry, p: Platform, takeover: Takeover, enabled: bool, asked: set<Action>)
    requires Chronicle(log, p, takeover, enabled, asked) && Rule(e, takeover, enabled, p)
    ensures Chronicle(log + [e], p, NextTakeover(takeover, e), enabled || e.action.EnableHwp?,
                      asked + if e.action.Begin? || e.action.Adjust? then {e.action} else {})
  {
    var next := log + [e];
    assert next[..|log|] == log;
    forall i | 0 <= i < |next|
      ensures Permitted(next, i, p)
    {
      if i < |log| {
        assert next[..i] == log[..i] && Permitted(log, i, p);
      }
    }
  }

  /** Every request in a log is among those that came into force. */
  lemma {:induction false} AskedEverywhere(log: seq<Entry>)
    ensures forall i | 0 <= i < |log| && (log[i].action.Begin? || log[i].action.Adjust?) ::
              log[i].action in AskedIn(log)
  {
    if log != [] {
      AskedEverywhere(log[..|log| - 1]);
    }
  }

  function Cpus(n: nat): (s: set<nat>)
    ensures |s| == n && forall c: nat :: c in s <==> c < n
  {
    if n == 0 then {} else Cpus(n - 1) + {n - 1}
  }

  class Machine {
    const p: Platform
    var regs: Registers
    ghost var log: seq<Entry>
    ghost var guardOrdered: seq<bool>
    ghost var takeover: Takeover
    ghost var enabled: bool
    ghost var asked: set<Action>

    ghost predicate Shaped()
      reads this`regs, this`guardOrdered
    {
      |regs.control| == |regs.requests| == |guardOrdered| == p.cpus
    }

    /** The log is lawful, and the other ghost fields are what it says. */
    ghost predicate Chronicled()
      reads this`log, this`takeover, this`enabled, this`asked
    {
      Chronicle(log, p, takeover, enabled, asked)
    }

    constructor (p: Platform, regs: Registers)
      requires |regs.control| == |regs.requests| == p.cpus
      ensures this.p == p && this.regs == regs && log == [] && Shaped() && Chronicled()
    {
      this.p := p;
      this.regs := regs;
      log, takeover, enabled, asked := [], NotTaken, false, {};
      guardOrdered := seq(p.cpus, i => false);
    }

    method Lands() returns (landed: bool)
      ensures p.faithful ==> landed
    {
      if p.faithful {
        landed := true;
      } else {
        landed := *;
      }
    }

    /** The entry of an action at this moment. */
    ghost function Now(a: Action): Entry
      reads this`regs, this`guardOrdered
    {
      Entry(a, regs, guardOrdered)
    }

    /** An arm takes the registers over. */
    ghost method BeginTakeover(r: LimitRequest)
      requires Chronicled() && r.Reasonable(p) && !regs.limit.locked && regs.Guarded()
      modifies this`log, this`takeover, this`asked
      ensures Chronicled() && takeover == Taken(r, r, regs) && asked == old(asked) + {Begin(r)}
    {
      Append(log, Now(Begin(r)), p, takeover, enabled, asked);
      log, takeover, asked := log + [Now(Begin(r))], Taken(r, r, regs), asked + {Begin(r)};
    }

    /** An update comes into force. */
    ghost method AdjustTakeover(r: LimitRequest)
      requires Chronicled() && r.Reasonable(p) && takeover.Taken?
      modifies this`log, this`takeover, this`asked
      ensures Chronicled() && takeover == old(takeover).(current := r) && asked == old(asked) + {Adjust(r)}
    {
      Append(log, Now(Adjust(r)), p, takeover, enabled, asked);
      log, takeover, asked := log + [Now(Adjust(r))], takeover.(current := r), asked + {Adjust(r)};
    }

    method WriteLimit(value: PowerLimit)
      requires Chronicled() && Rule(Now(LimitWrite(value)), takeover, enabled, p)
      modifies this`regs, this`log
      ensures Chronicled()
      ensures regs == old(regs).(limit := value) || (regs == old(regs) && !p.faithful)
    {
      Append(log, Now(LimitWrite(value)), p, takeover, enabled, asked);
      log := log + [Now(LimitWrite(value))];
      var landed := Lands();
      if landed {
        regs := regs.(limit := value);
      }
    }

    method WriteHwpEnable()
      requires Chronicled() && MayEnable(regs, takeover, p)
      modifies this`regs, this`log, this`enabled
      ensures Chronicled() && enabled
      ensures regs == old(regs).(hwpOn := true) || (regs == old(regs) && !p.faithful)
    {
      Append(log, Now(EnableHwp), p, takeover, enabled, asked);
      log, enabled := log + [Now(EnableHwp)], true;
      var landed := Lands();
      if landed {
        regs := regs.(hwpOn := true);
      }
    }

    method WritePackageRequest(value: Request)
      modifies this`regs
      ensures regs == old(regs).(package := value) || (regs == old(regs) && !p.faithful)
    {
      var landed := Lands();
      if landed {
        regs := regs.(package := value);
      }
    }

    method WriteRequest(cpu: nat, value: Request)
      requires cpu < |regs.requests|
      modifies this`regs
      ensures regs == old(regs).(requests := old(regs).requests[cpu := value]) || (regs == old(regs) && !p.faithful)
    {
      var landed := Lands();
      if landed {
        regs := regs.(requests := regs.requests[cpu := value]);
      }
    }

    /** Every write that clears a guard is recorded. */
    method WriteControl(cpu: nat, value: PowerControl)
      requires Shaped() && Chronicled() && cpu < p.cpus && (!value.guard ==> MayClear(regs, takeover, p))
      modifies this`regs, this`log, this`guardOrdered
      ensures Shaped() && Chronicled() && (value.guard ==> log == old(log))
      ensures regs == old(regs).(control := old(regs).control[cpu := value]) || (regs == old(regs) && !p.faithful)
      ensures guardOrdered == old(guardOrdered)[cpu := value.guard]
    {
      if !value.guard {
        Append(log, Now(ClearGuardOn(cpu)), p, takeover, enabled, asked);
        log := log + [Now(ClearGuardOn(cpu))];
      }
      guardOrdered := guardOrdered[cpu := value.guard];
      var landed := Lands();
      if landed {
        regs := regs.(control := regs.control[cpu := value]);
      }
    }
  }

  /** The CPUs in `claimed` own the slots 0 .. |owner| - 1, one each. */
  ghost predicate Slotted(claimed: set<nat>, owner: seq<nat>, slot: seq<nat>) {
    && (forall k | 0 <= k < |owner| :: owner[k] in claimed && owner[k] < |slot| && slot[owner[k]] == k)
    && (forall c | c in claimed :: c < |slot| && slot[c] < |owner| && owner[slot[c]] == c)
  }

  lemma SlottedOneMore(claimed: set<nat>, owner: seq<nat>, slot: seq<nat>, c: nat)
    requires Slotted(claimed, owner, slot) && c !in claimed && c < |slot|
    ensures Slotted(claimed + {c}, owner + [c], slot[c := |owner|])
  {
  }

  /** The shared structure of `powerControlOnCPU`. The handlers of different CPUs interleave: each one works on its
      CPU's own register, then claims a slot by an atomic increment, then stores what it read back. Each set holds
      the CPUs that still have that step ahead of them. */
  class GuardBroadcast {
    const m: Machine
    const op: GuardOp
    ghost const before: Registers
    ghost const logBefore: seq<Entry>
    ghost const orderedBefore: seq<bool>
    ghost const takeover: Takeover
    const all: set<nat>         // the CPUs taking part

    var count: nat
    var overflow: nat
    var values: seq<PowerControl>

    // The handlers' program counters and local variables
    var touch: set<nat>
    var claim: set<nat>
    var store: set<nat>
    var value: seq<PowerControl>
    var slot: seq<nat>
    ghost var owner: seq<nat>   // the CPUs in the order they claimed a slot

    ghost predicate Counters()
      reads this`touch, this`claim, this`store, this`value, this`slot, this`values
    {
      && (forall c: nat :: c in all <==> c < m.p.cpus)
      && touch <= claim <= store <= all
      && |value| == |slot| == m.p.cpus && |values| == MAX_CPUS
    }

    /** What has happened to the registers so far. */
    ghost predicate RegistersValid()
      reads this`touch, this`value, m`regs, m`guardOrdered
    {
      && m.Shaped() && |before.control| == |value| == m.p.cpus && touch <= all
      && (forall c: nat :: c in all <==> c < m.p.cpus)
      && m.regs == before.(control := m.regs.control)
      && (forall c | c in touch :: m.regs.control[c] == before.control[c])
      && (forall c | c in all - touch :: value[c] == m.regs.control[c] && Reached(value[c], c) && Ordered(c))
      && (op == ReadGuard ==> m.guardOrdered == orderedBefore)
    }

    ghost predicate Reached(v: PowerControl, c: nat)
      requires c < |before.control|
    {
      v == op.Apply(before.control[c]) || (v == before.control[c] && !m.p.faithful)
    }

    ghost predicate Ordered(c: nat)
      reads m`guardOrdered
      requires c < |m.guardOrdered|
    {
      op != ReadGuard ==> m.guardOrdered[c] == op.SetGuard?
    }

    ghost predicate LogValid()
      reads m`log, m`takeover, m`enabled, m`asked
    {
      && m.Chronicled() && m.takeover == takeover && (op != ClearGuard ==> m.log == logBefore)
      && (op == ClearGuard ==> MayClear(before, takeover, m.p))
    }

    /** The claimed slots are exactly 0 .. count - 1, one per claiming CPU. */
    ghost predicate SlotsValid()
      reads this`touch, this`claim, this`store, this`value, this`slot, this`values
      reads this`count, this`owner, this`overflow
    {
      && Counters() && count == |owner| && count + |claim| == m.p.cpus && Slotted(all - claim, owner, slot)
      && (overflow == 0 <==> forall c | c in all - store :: slot[c] < MAX_CPUS)
    }

    ghost predicate Valid()
      reads this, m
    {
      RegistersValid() && LogValid() && SlotsValid() && StoredValid()
    }

    /** The stored values are the registers of the CPUs that stored them. */
    ghost predicate StoredValid()
      reads this`touch, this`claim, this`store, this`value, this`slot, this`values
      reads this`count, this`owner, this`overflow
      reads m`regs
      requires SlotsValid() && |m.regs.control| == m.p.cpus
    {
      forall c | c in all - store && slot[c] < MAX_CPUS :: values[slot[c]] == m.regs.control[c]
    }

    constructor (m: Machine, op: GuardOp)
      requires m.Shaped() && m.Chronicled() && (op == ClearGuard ==> MayClear(m.regs, m.takeover, m.p))
      ensures this.m == m && this.op == op
      ensures before == m.regs && logBefore == m.log && orderedBefore == m.guardOrdered
      ensures takeover == m.takeover && Valid()
    {
      this.m, this.op := m, op;
      before, logBefore, orderedBefore, takeover := m.regs, m.log, m.guardOrdered, m.takeover;
      count, overflow, owner := 0, 0, [];
      values := seq(MAX_CPUS, i => PowerControl(false, 0));
      var cpus := Cpus(m.p.cpus);
      all, touch, claim, store := cpus, cpus, cpus, cpus;
      value := m.regs.control;
      slot := seq(m.p.cpus, i => 0);
    }

    /** Change the guard bit of the CPU's own register. */
    method WriteOwn(c: nat)
      requires RegistersValid() && LogValid() && c in touch && op != ReadGuard
      modifies m`regs, m`log, m`guardOrdered
      ensures m.Shaped() && LogValid()
      ensures m.guardOrdered == old(m.guardOrdered)[c := op.SetGuard?]
      ensures exists v: PowerControl :: Reached(v, c) && m.regs == old(m.regs).(control := old(m.regs).control[c := v])
    {
      m.WriteControl(c, op.Apply(m.regs.control[c]));
      assert m.regs == old(m.regs).(control := old(m.regs).control[c := m.regs.control[c]]);
      assert Reached(m.regs.control[c], c);
    }

    /** Read the register, change the guard bit, write it and read it back. */
    method Touch(c: nat)
      requires Valid() && c in touch
      modifies this`value, this`touch
      modifies (if op != ReadGuard then {m} else {})`regs, (if op != ReadGuard then {m} else {})`log,
          (if op != ReadGuard then {m} else {})`guardOrdered
      ensures Valid() && touch == old(touch) - {c}
    {
      if op != ReadGuard {
        WriteOwn(c);
      }
      value := value[c := m.regs.control[c]];
      touch := touch - {c};
    }

    /** The atomic increment. */
    method TakeSlot(c: nat)
      requires c < |slot|
      modifies this`slot, this`owner, this`count, this`claim
      ensures slot == old(slot)[c := old(count)] && owner == old(owner) + [c]
      ensures count == old(count) + 1 && claim == old(claim) - {c}
    {
      slot := slot[c := count];
      owner := owner + [c];
      count := count + 1;
      claim := claim - {c};
    }

    method Claim(c: nat)
      requires |m.regs.control| == m.p.cpus && SlotsValid() && StoredValid() && c in claim - touch
      modifies this`slot, this`owner, this`count, this`claim
      ensures SlotsValid() && StoredValid() && claim == old(claim) - {c}
    {
      SlottedOneMore(all - claim, owner, slot, c);
      TakeSlot(c);
      assert all - claim == old(all - claim) + {c};
    }

    method Store(c: nat)
      requires |m.regs.control| == m.p.cpus && SlotsValid() && StoredValid() && c in store - claim
      requires value[c] == m.regs.control[c]
      modifies this`values, this`overflow, this`store
      ensures SlotsValid() && StoredValid() && store == old(store) - {c}
    {
      PutSlot(c);
      assert all - store == old(all - store) + {c};
    }

    method PutSlot(c: nat)
      requires c < |slot| && c < |value| && |values| == MAX_CPUS
      modifies this`values, this`overflow, this`store
      ensures store == old(store) - {c}
      ensures values == if slot[c] < MAX_CPUS then old(values)[slot[c] := value[c]] else old(values)
      ensures overflow == if slot[c] < MAX_CPUS then old(overflow) else old(overflow) + 1
    {
      if slot[c] < MAX_CPUS {
        values := values[slot[c] := value[c]];
      } else {
        overflow := overflow + 1;
      }
      store := store - {c};
    }

    /** Some CPU that can makes its next step. */
    method TouchSome()
      requires Valid() && touch != {}
      modifies this`value, this`touch
      modifies (if op != ReadGuard then {m} else {})`regs, (if op != ReadGuard then {m} else {})`log,
          (if op != ReadGuard then {m} else {})`guardOrdered
      ensures Valid() && touch < old(touch)
    {
      var c :| c in touch;
      Touch(c);
    }

    method ClaimSome()
      requires Valid() && claim - touch != {}
      modifies this`slot, this`owner, this`count, this`claim
      ensures Valid() && claim < old(claim)
    {
      var c :| c in claim - touch;
      Claim(c);
    }

    method StoreSome()
      requires Valid() && store - claim != {}
      modifies this`values, this`overflow, this`store
      ensures Valid() && store < old(store)
    {
      var c :| c in store - claim;
      Store(c);
    }

    /** `mp_rendezvous_no_intrs`: every CPU runs the handler to its end, in any interleaving. */
    method Rendezvous()
      requires Valid()
      modifies this, (if op != ReadGuard then {m} else {})`regs, (if op != ReadGuard then {m} else {})`log,
          (if op != ReadGuard then {m} else {})`guardOrdered
      ensures Valid() && store == {}
    {
      while
        invariant Valid()
        decreases touch, claim, store
      {
        case touch != {} => TouchSome();
        case claim - touch != {} => ClaimSome();
        case store - claim != {} => StoreSome();
      }
    }

    lemma Finished()
      requires Valid() && store == {}
      ensures count == m.p.cpus && Permutation(owner, m.p.cpus)
      ensures overflow == 0 <==> m.p.cpus <= MAX_CPUS
      ensures forall k | 0 <= k < m.p.cpus && k < MAX_CPUS :: values[k] == m.regs.control[owner[k]]
      ensures forall c | 0 <= c < m.p.cpus :: Reached(m.regs.control[c], c)
      ensures op != ReadGuard ==> forall c | 0 <= c < m.p.cpus :: m.guardOrdered[c] == op.SetGuard?
    {
      assert claim == {} && touch == {};
      forall c: nat | c < m.p.cpus
        ensures Reached(m.regs.control[c], c) && (op != ReadGuard ==> m.guardOrdered[c] == op.SetGuard?)
      {
        assert c in all - touch;
      }
      forall c: nat | c < m.p.cpus
        ensures c in owner
      {
        assert c in all - claim && owner[slot[c]] == c;
      }
      if m.p.cpus > MAX_CPUS {
        assert slot[owner[MAX_CPUS]] == MAX_CPUS;
      }
    }
  }

  /** The shared structure of `hwpRequestOnCPU`. A CPU is turned away when it has no slot, when a write has no target
      for it, or when it does not see HWP enabled; otherwise it works on its own request and fills its own slot. */
  class RequestBroadcast {
    const m: Machine
    const write: bool
    const targets: seq<Request>
    const targetPresent: seq<bool>
    ghost const before: Registers
    const all: set<nat>

    var count: nat
    var overflow: nat
    var values: seq<Request>
    var present: seq<bool>

    var enter: set<nat>
    var touch: set<nat>
    var store: set<nat>
    var value: seq<Request>
    var refused: set<nat>   // the CPUs whose handler returned early

    ghost predicate Refused(c: nat)
    {
      c >= MAX_CPUS || (write && |targetPresent| == MAX_CPUS && !targetPresent[c]) || !before.hwpOn
    }

    ghost predicate Counters()
      reads this
    {
      && (forall c: nat :: c in all <==> c < m.p.cpus)
      && enter <= touch <= store <= all && |value| == m.p.cpus
      && |values| == |present| == |targets| == |targetPresent| == MAX_CPUS
      && count + |enter| == m.p.cpus
      && (overflow == 0 <==> refused == {}) && refused <= all - enter
      && (forall c | c in all - enter :: c in refused <==> Refused(c))
    }

    ghost predicate Valid()
      reads this, m
    {
      && Counters() && |m.regs.requests| == |before.requests| == m.p.cpus
      && m.regs == before.(requests := m.regs.requests)
      && (forall c | c in touch || (c in all && Refused(c)) :: m.regs.requests[c] == before.requests[c])
      && (forall c | c in all - touch && !Refused(c) ::
          Reached(m.regs.requests[c], c) && value[c] == m.regs.requests[c])
      && (forall c | 0 <= c < MAX_CPUS :: present[c] <==> c in all - store && !Refused(c))
      && (forall c | 0 <= c < MAX_CPUS && present[c] :: values[c] == m.regs.requests[c])
    }

    ghost predicate Reached(v: Request, c: nat)
      requires c < |before.requests| && |targets| == MAX_CPUS && !Refused(c)
    {
      if write then v == targets[c] || (v == before.requests[c] && !m.p.faithful)
      else v == before.requests[c]
    }

    constructor (m: Machine, write: bool, targets: seq<Request>, targetPresent: seq<bool>)
      requires m.Shaped() && |targets| == |targetPresent| == MAX_CPUS
      ensures this.m == m && this.write == write && this.targets == targets && this.targetPresent == targetPresent
      ensures before == m.regs && Valid()
    {
      this.m, this.write, this.targets, this.targetPresent := m, write, targets, targetPresent;
      before := m.regs;
      count, overflow, refused := 0, 0, {};
      values := targets;
      present := seq(MAX_CPUS, i => false);
      var cpus := Cpus(m.p.cpus);
      all, enter, touch, store := cpus, cpus, cpus, cpus;
      value := m.regs.requests;
    }

    method Enter(c: nat)
      requires Valid() && c in enter
      modifies this`count, this`overflow, this`enter, this`refused
      ensures Valid() && enter == old(enter) - {c}
    {
      count := count + 1;
      enter := enter - {c};
      if c >= MAX_CPUS || present[c] || (write && !targetPresent[c]) || !m.regs.hwpOn {
        overflow := overflow + 1;
        refused := refused + {c};
      }
    }

    method Touch(c: nat)
      requires Valid() && c in touch - enter
      modifies this`value, this`touch, (if write then {m} else {})`regs
      ensures Valid() && touch == old(touch) - {c}
    {
      if c !in refused {
        if write {
          m.WriteRequest(c, targets[c]);
        }
        value := value[c := m.regs.requests[c]];
      }
      touch := touch - {c};
    }

    method Store(c: nat)
      requires Valid() && c in store - touch
      modifies this`values, this`present, this`store
      ensures Valid() && store == old(store) - {c}
    {
      if c !in refused {
        values := values[c := value[c]];
        present := present[c := true];
      }
      store := store - {c};
    }

    method EnterSome()
      requires Valid() && enter != {}
      modifies this`count, this`overflow, this`enter, this`refused
      ensures Valid() && enter < old(enter)
    {
      var c :| c in enter;
      Enter(c);
    }

    method TouchSome()
      requires Valid() && touch - enter != {}
      modifies this`value, this`touch, (if write then {m} else {})`regs
      ensures Valid() && touch < old(touch)
    {
      var c :| c in touch - enter;
      Touch(c);
    }

    method StoreSome()
      requires Valid() && store - touch != {}
      modifies this`values, this`present, this`store
      ensures Valid() && store < old(store)
    {
      var c :| c in store - touch;
      Store(c);
    }

    method Rendezvous()
      requires Valid()
      modifies this, (if write then {m} else {})`regs
      ensures Valid() && store == {}
    {
      while
        invariant Valid()
        decreases enter, touch, store
      {
        case enter != {} => EnterSome();
        case touch - enter != {} => TouchSome();
        case store - touch != {} => StoreSome();
      }
    }

    lemma Finished()
      requires Valid() && store == {}
      ensures count == m.p.cpus
      ensures overflow == 0 <==>
                m.p.cpus == 0 ||
                (m.p.cpus <= MAX_CPUS && m.regs.hwpOn && (write ==> forall c | 0 <= c < m.p.cpus :: targetPresent[c]))
      ensures forall c | 0 <= c < MAX_CPUS :: present[c] <==> c < m.p.cpus && !Refused(c)
    {
      assert enter == {} && touch == {};
      if overflow == 0 {
        forall c: nat | c < m.p.cpus
          ensures !Refused(c)
        {
          assert c in all - enter;
        }
        assert m.p.cpus > 0 ==> !Refused(m.p.cpus - 1);
        assert write ==> forall c: nat | c < m.p.cpus :: !Refused(c) ==> targetPresent[c];
      } else {
        var c :| c in refused;
        assert Refused(c);
      }
    }
  }

  /** `owner` lists each of the first `n` naturals exactly once. */
  ghost predicate Permutation(owner: seq<nat>, n: nat) {
    && |owner| == n
    && (forall k | 0 <= k < n :: owner[k] < n)
    && (forall j, k | 0 <= j < k < n :: owner[j] != owner[k])
    && (forall c: nat | c < n :: c in owner)
  }

  /** A power-control broadcast: whatever the interleaving, the recorded values are the CPUs' registers in some order,
      none lost and none twice, and overflow reports exactly the machines with more CPUs than slots. */
  method GuardRendezvous(m: Machine, op: GuardOp)
    returns (count: nat, overflow: nat, values: seq<PowerControl>, ghost owner: seq<nat>)
    requires m.Shaped() && m.Chronicled() && (op == ClearGuard ==> MayClear(m.regs, m.takeover, m.p))
    modifies (if op != ReadGuard then {m} else {})`regs, (if op != ReadGuard then {m} else {})`log,
        (if op != ReadGuard then {m} else {})`guardOrdered
    ensures m.Shaped() && m.regs == old(m.regs).(control := m.regs.control)
    ensures forall c | 0 <= c < m.p.cpus ::
              || m.regs.control[c] == op.Apply(old(m.regs).control[c])
              || (m.regs.control[c] == old(m.regs).control[c] && !m.p.faithful)
    ensures if op == ReadGuard then m.guardOrdered == old(m.guardOrdered)
            else forall c | 0 <= c < m.p.cpus :: m.guardOrdered[c] == op.SetGuard?
    ensures m.Chronicled() && (op != ClearGuard ==> m.log == old(m.log))
    ensures count == m.p.cpus && |values| == 64 && (overflow == 0 <==> m.p.cpus <= 64)
    ensures Permutation(owner, m.p.cpus)
    ensures forall k | 0 <= k < m.p.cpus && k < MAX_CPUS :: values[k] == m.regs.control[owner[k]]
  {
    var b := new GuardBroadcast(m, op);
    b.Rendezvous();
    count, overflow, values, owner := b.count, b.overflow, b.values, b.owner;
    b.Finished();
  }

  /** An HWP request broadcast: it counts every CPU, overflows exactly when some CPU is turned away, and leaves in each
      filled slot what that CPU's register now holds. */
  method RequestRendezvous(m: Machine, write: bool, targets: seq<Request>, targetPresent: seq<bool>)
    returns (count: nat, overflow: nat, values: seq<Request>, present: seq<bool>)
    requires m.Shaped() && |targets| == |targetPresent| == MAX_CPUS
    modifies (if write then {m} else {})`regs
    ensures m.Shaped() && m.regs == old(m.regs).(requests := m.regs.requests)
    ensures count == m.p.cpus && |values| == |present| == 64
    ensures overflow == 0 <==>
              m.p.cpus == 0 ||
              (m.p.cpus <= MAX_CPUS && m.regs.hwpOn && (write ==> forall c | 0 <= c < m.p.cpus :: targetPresent[c]))
    ensures forall c | 0 <= c < MAX_CPUS ::
              present[c] <==> c < m.p.cpus && m.regs.hwpOn && (write ==> targetPresent[c])
    ensures forall c | 0 <= c < MAX_CPUS && present[c] ::
              && values[c] == m.regs.requests[c]
              && if write then values[c] == targets[c] || (values[c] == old(m.regs).requests[c] && !m.p.faithful)
                 else values[c] == old(m.regs).requests[c]
    ensures forall c | 0 <= c < m.p.cpus && (c >= MAX_CPUS || !present[c]) ::
              m.regs.requests[c] == old(m.regs).requests[c]
  {
    var b := new RequestBroadcast(m, write, targets, targetPresent);
    b.Rendezvous();
    count, overflow, values, present := b.count, b.overflow, b.values, b.present;
    b.Finished();
  }
}
