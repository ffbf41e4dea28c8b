# TurboMac: verified models of its controllers

TurboMac raises and lowers the power limits of a Mac: a macOS kernel driver with a fail-safe protocol, a macOS policy
controller, a Linux governor daemon, and the configuration, fan and profile code around them. This project models those
parts in Dafny and proves what they promise, over every input and every run.

- **Driver** (`RaplCodec`, `HwpCodec`, `Hardware`, `Driver`). The registers are fields of a machine whose writes may each
  land or be lost; reads are truthful and only the driver writes. A run is any sequence of client events and watchdog ticks,
  at any times: a tick may be late, or come early because it was waiting for the lock while an update set the timer again.
  The machine records every write that matters for safety in a ghost log, with the registers just before it, and every
  request at the moment it comes into force, so that "only after" is a statement about the log: `Hardware.Permitted` judges
  an entry by the entries before it, and the driver can choose nothing in an entry but the value it writes. The rendezvous
  broadcasts are interleavings of per-CPU handler steps on the shared broadcast object. The words of the registers are
  decoded into records; the codec modules prove that the records are exact images of the words and that the bit operations
  are the record operations. The driver's HWP fields are grouped in one record.
- **Linux governor** (`Governor`, `GovernorLoop`, `GovernorRuns`, `GovernorProgress`, `GovernorModes`, `GovernorDwells`,
  `GovernorDaemon`). `Governor.Step` is the decision as a function; `GovernorDaemon` has the working copy and the daemon in
  the form of the code and is proved equal to it. Limit writes may fail, be partial, or be unreadable.
- **macOS policy** (`Policy`, `PolicyRuns`, `PolicyBands`, `PolicyFilters`, `PolicyMeasures`, `PolicyObject`). The same
  split: state function, theorems over runs of calls, and the object with its deques and loops proved equal to the function.
  `1 - exp(-x)` is any function with values in [0, 1).
- **Configuration** (`ConfigRules`, `ConfigTree`, `ConfigDefaults`, `ConfigUse`), **fans** (`FanLadder`, `FanControl`) and the
  **calibration profile** (`ProfileText`, `ProfileLines`, `Profile`).

Numbers of the controllers are `real`; those of a profile are integers in millionths.

Where the code does not do what its documentation says, or a property one would expect is false, the model follows the code,
a failing input is given, and the exact condition is proved:

- A milliwatt ceiling is respected by the raw encoding exactly for power exponents up to 9 and from 26 on
  (`RaplCodec.CeilingRespectedExactly`); `RaplCodec.CeilingBreaker` gives a failing field for every exponent between.
- NORMAL does not always mean PL1 at the top. It fails after exactly those steps in which a sample that is not valid, while
  the last valid one is not stale and no readback failed, holds NORMAL although the thermal ceiling is below the top or PL1
  already was (`GovernorRuns.NormalBelowTopExactly`); two ticks from the start of the daemon reach it
  (`GovernorRuns.NormalBelowTop`).
- The fan ladder starts the timer of the next step at the drop of the step above, when the temperature may still be above the
  release threshold of the next step, so a release need not follow a full interval below the threshold
  (`FanLadder.EarlyRelease`). It does exactly when the input that started the timer was below it, or the input after that one
  is a full interval old (`FanLadder.ReleaseFollowsDwell`).
- `validate` can reject a key that was not updated (`ConfigDefaults.RejectsWhatWasNotUpdated`): exactly those keys for which
  some pass comes to a broken rule that reads them after all updated keys of that rule were taken out by rules before it
  (`ConfigRules.Validate`).
- A saved profile does not always load back. It does exactly when its floor and ceilings lose no digit and no decimal but
  zeros in the 64-byte print buffer (`Profile.SaveThenLoad`); for numbers that are doubles, exactly when the ceilings are
  below 10^63 W (`Profile.DoublesLoadBack`), and 2^210 W is a failing input (`Profile.LostProfile`). It is then unchanged
  exactly if it is of version 2 or has the default ratios, which version 1 does not save (`Profile.RoundTripExactly`,
  `Profile.LostRatios`).

## Model

| member | source | states |
|---|---|---|
| RaplCodec.DecodeInjective | Shared/RAPLCodec.h:6-12 | the record of a 0x610 word determines the word: nothing of the register is lost in the model |
| RaplCodec.DecodeWithPowerLimits | Shared/RAPLCodec.h:45-62 | the masks and shifts replace both fields, enable and clamp both, clear the lock and keep both time windows |
| RaplCodec.DecodeMatches | TurboMac/TurboMac.cpp:767-771 | the masked readback comparison is equality of every field outside the time windows, the lock included |
| RaplCodec.DecodeClearLock | TurboMac/TurboMac.cpp:1418-1419 | masking the lock bit changes only the lock |
| RaplCodec.MwToRawMonotone | Shared/RAPLCodec.h:22-35 | a larger request never encodes to a smaller field |
| RaplCodec.EncodeUndoesDecode | Shared/RAPLCodec.h:14-35 | for exponents up to 9 encoding the milliwatts of any 15-bit field gives the field back |
| RaplCodec.CeilingRespectedExactly | Shared/RAPLCodec.h:14-35 | a value not above the decoded field encodes to a field not above it, for all values and all fields, if and only if the exponent is at most 9 or at least 26 |
| RaplCodec.CeilingBreaker | Shared/RAPLCodec.h:14-35 | for every exponent between, a field whose own milliwatts encode above it |
| RaplCodec.LimitLayout | Shared/RAPLCodec.h:6-12 | which bits of the 0x610 word are the two limits, their enables and clamps, and the lock |
| RaplCodec.ReportedNearest | Shared/RAPLCodec.h:14-20 | the reported milliwatts are the nearest to the field times the unit, for every exponent below 31 |
| RaplCodec.EncodedNearest | Shared/RAPLCodec.h:22-35 | the encoded field is the nearest to the request, never zero for a positive one and never beyond the field |
| HwpCodec.FailSafeIsRestricted | Shared/HWPCodec.h:100-117 | under every package request the fail-safe request passes the restricted-maximum test exactly when the lowest level is below the highest |
| HwpCodec.FailSafeIsFrugal | Shared/HWPCodec.h:100-128 | exactly when the lowest level is below the highest, the fail-safe request asks for the lowest minimum, a maximum between lowest and highest (the most efficient level where it lies there), no desired level and the strongest energy preference; the active request asks for lowest to highest with the balanced preference |
| HwpCodec.DecodeFailSafe | Shared/HWPCodec.h:100-116 | the fail-safe word built from the capabilities word by shifts decodes to the fail-safe record |
| HwpCodec.DecodeActive | Shared/HWPCodec.h:118-128 | likewise the active word |
| HwpCodec.DecodeMakeRequest | Shared/HWPCodec.h:88-98 | a request word put together from four values has each value's low byte in its own field and nothing else |
| HwpCodec.CapabilitiesLayout | Shared/HWPCodec.h:19-33 | which byte of 0x771 is which level |
| HwpCodec.RequestLayout | Shared/HWPCodec.h:35-57 | which bits of a request word are the four levels, package control and the valid bits |
| HwpCodec.EffectiveFromWords | Shared/HWPCodec.h:70-80 | the maximum a CPU obeys, from its own word and the package word |
| HwpCodec.SaneExactly | Shared/HWPCodec.h:59-68 | capabilities are sane exactly when there is a highest level and no other level is above it |
| HwpCodec.DecodeRequestInjective | Shared/HWPCodec.h:35-58 | the record of an HWP request word determines the word |
| HwpCodec.DecodeWithMaximum | Shared/HWPCodec.h:82-87 | the masked update changes the maximum byte only |
| HwpCodec.DecodeWithLocalMaximum | Shared/HWPCodec.h:130-141 | the local override sets the maximum and, under package control with flexible fields, its valid bit, and touches nothing else |
| Hardware.GuardBroadcast.Rendezvous | TurboMac/TurboMac.cpp:773-794 | any interleaving of touch, slot claim and store steps of all CPUs ends with every CPU done and the invariant kept |
| Hardware.Machine.WriteLimit | TurboMac/TurboMac.cpp:740-765 | a limit write lands or is lost, and is recorded with the registers before it; it may only be the limit asked for, or the one found, behind the guard order and a verified HWP state |
| Hardware.Machine.WriteControl | TurboMac/TurboMac.cpp:773-794 | every write that clears a guard is recorded, and may only come behind the limit of the request in force and a released HWP maximum |
| Hardware.Append | TurboMac/TurboMac.cpp:323-472 | an entry that keeps its rule in the takeover it falls into extends a log in which every entry does |
| Hardware.FloorIs | TurboMac/TurboMac.cpp:669-675 | the floor is the smallest power of 0x614, or one watt where it has none |
| Hardware.LowLimitIs | TurboMac/TurboMac.cpp:385-393 | the low limit of a bootstrap is the least of the request and the larger of five watts and the floor |
| Hardware.LimitIs | Shared/RAPLCodec.h:45-62 | the register a request asks for has each limit in its own field, both enabled and clamped, no lock, and the boot windows |
| Hardware.GuardRendezvous | TurboMac/TurboMac.cpp:773-857 | the recorded values are a permutation of the per-CPU readbacks, none lost; overflow exactly above 64 CPUs; every write is logged with the registers before it |
| Hardware.RequestRendezvous | TurboMac/TurboMac.cpp:1025-1121 | each responding CPU's slot holds that CPU's register; overflow exactly when a CPU is turned away; refused CPUs keep their request |
| Driver.Driver.constructor | TurboMac/TurboMac.cpp:44-100 | a fresh driver is passive, owns nothing and satisfies the invariant |
| Driver.Driver.Start | TurboMac/TurboMac.cpp:656-706 | the driver becomes supported only on a known CPU with an exponent below 31, a thermal limit, a maximum (that of 0x614, or the larger current limit where it has none) not below the floor, 1 to 64 CPUs and every guard on; on such a machine it does, if the guards are on or writes land; the capability maximum is that maximum; starting touches the guard registers only and establishes the invariant of every lock release |
| Driver.Driver.ReadPowerControl | TurboMac/TurboMac.cpp:795-825 | the two summaries are exact for 1 to 64 CPUs and the call fails otherwise |
| Driver.Driver.SetGuardAll | TurboMac/TurboMac.cpp:836-857 | true exactly when every CPU's guard bit has the wanted value; other bits of the register are kept |
| Driver.Driver.ReadRequests | TurboMac/TurboMac.cpp:1059-1089 | on success the present slots are exactly the CPUs, with their requests |
| Driver.Driver.WriteRequests | TurboMac/TurboMac.cpp:1090-1121 | true exactly when the responding set is the target set and each CPU holds its target |
| Driver.Driver.InitializeHwp | TurboMac/TurboMac.cpp:965-1024 | HWP counts as on only when the enable bit is, with the capabilities of the processor |
| Driver.Driver.CaptureHwpState | TurboMac/TurboMac.cpp:1123-1163 | a successful capture holds every CPU's request and the package request |
| Driver.Driver.VerifyFailSafe | TurboMac/TurboMac.cpp:1228-1246 | true only if every CPU holds the fail-safe request |
| Driver.Driver.EnsureFailSafe | TurboMac/TurboMac.cpp:1197-1226 | success means every CPU holds the fail-safe request, with the lowest minimum, a maximum below the highest level and the strongest energy preference; on faithful hardware it succeeds |
| Driver.Driver.MaximumRestricted | TurboMac/TurboMac.cpp:1247-1274 | exactly the test that every present request is restricted under the package request |
| Driver.Driver.VerifyOverride | TurboMac/TurboMac.cpp:1321-1358 | true exactly when an override is active and every register group holds what it planned |
| Driver.Driver.ApplyHwpMaximum | TurboMac/TurboMac.cpp:1275-1319 | success means every CPU may run up to the highest level, read back: with the active request where this driver turned HWP on, otherwise with the captured request unchanged but for its maximum |
| Driver.Driver.InstallLimits | TurboMac/TurboMac.cpp:740-771 | success means 0x610 holds exactly the encoded request; a raw field above the captured one is refused |
| Driver.Driver.BootstrapEnable | TurboMac/TurboMac.cpp:1164-1183 | HWP is enabled only behind the verified low limit of the request in force and with every guard on |
| Driver.Driver.SwitchOn | TurboMac/TurboMac.cpp:911-931 | the enable bit is written once, from then on HWP is ours, and success is the bit read back |
| Driver.Driver.BootstrapHwp | TurboMac/TurboMac.cpp:1164-1196 | after success HWP is ours and captured, every CPU holds the fail-safe request, and the low limit was verified again |
| Driver.Driver.RestoreHwp | TurboMac/TurboMac.cpp:1359-1381 | success means the captured requests are back, or the fail-safe holds where HWP is ours |
| Driver.Driver.RestoreLimits | TurboMac/TurboMac.cpp:1412-1420 | the captured limit is written only behind a verified HWP state; otherwise the low limit stays |
| Driver.Driver.RestoreRegisters | TurboMac/TurboMac.cpp:1412-1420 | guard, HWP and limit in this order; if all report success the registers are the saved ones; on faithful hardware all do |
| Driver.Driver.Restore | TurboMac/TurboMac.cpp:1395-1436 | from any stable state to the invariant of a lock release, never Armed |
| Driver.Driver.ValidRequestEncodes | TurboMac/TurboMac.cpp:720-751 | for exponents up to 9 and nonzero fields a request that passes the milliwatt check against the live or the captured limits never fails the raw check |
| Driver.Driver.ValidRequestExactly | Shared/DriverValidation.h:9-35 | a request passes exactly when it is well formed with the one timeout and a known mode, newer than the last, at least the floor, in order, and within every ceiling that is not zero, at least one of them not being so |
| Driver.Driver.Preflight | TurboMac/TurboMac.cpp:339-377 | the checks pass exactly when the limit is unlocked with both limits enabled, every guard is on, HWP is supported, the mode fits the enable bit and, with HWP on, the state can be captured and every request is restricted; the capture is then that of every CPU |
| Driver.Driver.TakeOver | TurboMac/TurboMac.cpp:385-414 | success means the limits of the request in force, the override and cleared guards, all read back; only a lost write makes a willing takeover fail |
| Driver.Driver.Arm | TurboMac/TurboMac.cpp:323-424 | each refusal is given exactly when its check fails, and success exactly when it becomes Armed; the saved registers are those before the call; a refusal changes no register; an error ends in Failsafe and cannot happen on ideal hardware, so there a request that passes the checks is granted |
| Driver.Driver.Update | TurboMac/TurboMac.cpp:426-456 | refused exactly when not armed or not valid, and on ideal hardware granted otherwise; success refreshes the heartbeat and installs the request; any other outcome of an armed driver restores |
| Driver.Driver.Disarm | TurboMac/TurboMac.cpp:458-472 | never leaves it Armed; success means the registers are the saved ones; refused exactly when malformed or not newer, and on faithful hardware an armed driver succeeds otherwise; a well-formed newer sequence number is recorded even so |
| Driver.Driver.Abandon | TurboMac/TurboMac.cpp:610-621 | a malformed command or a disconnect ends in Failsafe with the registers restored |
| Driver.Driver.WatchdogArmed | TurboMac/TurboMac.cpp:623-654 | stays Armed exactly with a nonzero heartbeat younger than the timeout, and then with unchanged registers and the next poll 250 ms away; otherwise restores |
| Driver.Driver.WatchdogYoung | TurboMac/TurboMac.cpp:631-638 | with a young heartbeat, the driver stays Armed exactly when limits, guards and HWP read back as expected; otherwise Failsafe with the registers restored |
| Driver.Driver.WatchdogPassive | TurboMac/TurboMac.cpp:623-654 | keeps guards and fail-safe, or reports Failsafe, and always has the next poll pending |
| Driver.Driver.AdvanceTo | TurboMac/TurboMac.cpp:1438-1461 | with an ideal timer the driver is Armed only if it was, with the same heartbeat, and less than 5.25 s after it |
| Driver.BeatKeptOn | TurboMac/TurboMac.cpp:416-456 | one more happening keeps it true that an Armed driver's heartbeat is that of the last accepted arm or update, with every tick since within the timeout |
| Driver.Run | TurboMac/TurboMac.cpp:323-654 | in every run of client events and ticks in any order and at any times, with any writes lost: PL1 and PL2 never above their boot values, lock never set, and every entry of the log permitted by the entries before it: a guard is cleared only while 0x610 holds exactly the limit of the request in force and every CPU is released; HWP is enabled only at the low limit of that request with all guards on; every limit write is that request's limit or low limit, or the limit found by the arm, and the latter only when every CPU was told to guard and the HWP registers are those the arm found, or the fail-safe where HWP was enabled; every request that came into force was an arm or update of the run, asks at least the floor and no less short-term than long-term power; captured exactly when Armed, Passive means guarded, a timer always pending, accepted sequence numbers strictly increase; an Armed driver's heartbeat is the time of the arm or update with the last accepted number, and no tick since came 5 s or more after it |
| Driver.PunctualRun | TurboMac/TurboMac.cpp:623-654 | where every tick comes when it is due, an Armed driver's last accepted arm or update is less than 5.25 s old |
| Driver.Session | TurboMac/TurboMac.cpp:323-472 | on hardware that keeps writes, arm, any updates and polls, then disarm, misuse or disconnect returns every register exactly; after a bootstrap HWP stays on with every CPU in the fail-safe, which the next arm accepts; on ideal hardware the arm succeeds exactly when the request is valid and grantable |
| GovernorLoop.StepWrites | linux/turbomac/daemon/governor.py:145-272 | every step emits at most one write, of the limits the new state records, and no write means the recorded limits are the old ones; entering a governed state writes |
| GovernorLoop.TickKeepsConsistent | linux/turbomac/daemon/main.py:192-197 | one tick keeps the agreement between recorded limits and registers, and a readback is pending exactly after a write |
| GovernorLoop.RunConsistent | linux/turbomac/daemon/main.py:192-276 | at every point of every run with a good verdict, or with none pending and the governor in NORMAL, TRIM, EMERGENCY or STATIC, the zone is enabled and each register holds the largest whole eighth of a watt not above that field's commanded limit, 45 W and that field's firmware limit |
| GovernorLoop.FailedReadbackFallsBack | linux/turbomac/daemon/governor.py:168-184 | a failed readback puts the next step of any mode but off into FALLBACK with a retry at most 8 s away and without raising PL1 |
| GovernorLoop.FullWriteVerifies | linux/turbomac/daemon/rapl.py:132-143 | where every write lands and can be read, the readback never fails |
| GovernorLoop.VerdictExactly | linux/turbomac/daemon/rapl.py:49-143 | a write is reported good exactly when nothing failed, the zone is readable and enabled, each register holds the right limit and the MSR is within an eighth of a watt and enabled; each write that lands puts the right limit into its own register |
| GovernorRuns.EmergencySampleReachesFloor | linux/turbomac/daemon/governor.py:185-239 | from any state one valid emergency sample whose readback did not fail brings PL1 to the floor |
| GovernorRuns.EmergencySampleKeepsFloor | linux/turbomac/daemon/governor.py:168-239 | and no readback verdict takes it up again while samples stay at emergency |
| GovernorRuns.ThreeEmergencySamples | linux/turbomac/daemon/governor.py:168-239 | whatever the readbacks say three emergency samples in a row suffice |
| GovernorRuns.StepMove | linux/turbomac/daemon/governor.py:92-271 | one dynamic step keeps floor, top and thermal cap; only a recovery outside FALLBACK raises PL1; a thermal trim lowers it strictly |
| GovernorRuns.RunMoves | linux/turbomac/daemon/governor.py:92-271 | the same in every tick of every fixed-configuration dynamic run |
| GovernorRuns.RecoveryRate | linux/turbomac/daemon/governor.py:256-264 | over any stretch of length T of such a run PL1 rises by at most recover_step_w * (1 + T / recover_interval_s), more exactly by n steps where n - 1 recovery intervals fit into it |
| GovernorRuns.InitialIsDynamic | linux/turbomac/daemon/governor.py:52-54 | the initial state satisfies what the run theorems start from when the firmware limit is not below the floor |
| GovernorRuns.NormalBelowTopExactly | linux/turbomac/daemon/governor.py:145-272 | after a step in any mode and from any state NORMAL comes with PL1 below the top if and only if a dynamic step without a failed readback, on a sample that is not valid and not yet stale, held NORMAL under a thermal ceiling below the top or with PL1 already below it |
| GovernorRuns.NormalBelowTop | linux/turbomac/daemon/governor.py:230-231 | the exception is reached two ticks after the start of the daemon, on hardware that takes every write |
| GovernorProgress.ShedCuts | linux/turbomac/daemon/governor.py:240-249 | in NORMAL or TRIM a sample at or above the shed threshold, below emergency, enters TRIM and lowers PL1 by the cut step or to the floor, unless the last cut is less than half a second old |
| GovernorProgress.SheddingRun | linux/turbomac/daemon/governor.py:240-249 | n such samples half a second apart cut n steps or reach the floor |
| GovernorProgress.CalmRecovers | linux/turbomac/daemon/governor.py:256-267 | a calm sample starts the recovery timer, or a recovery interval later raises PL1 by the recovery step, at most to the ceiling; NORMAL exactly at the top |
| GovernorProgress.UneasyHolds | linux/turbomac/daemon/governor.py:256-267 | a sample between the thresholds moves no limit and stops the recovery timer |
| GovernorProgress.RecoveryRun | linux/turbomac/daemon/governor.py:256-267 | n + 1 calm samples a recovery interval apart raise PL1 by n recovery steps or to the lowest effective ceiling of the run |
| GovernorModes.EmergencyEnters | linux/turbomac/daemon/governor.py:234-239 | a sample at the emergency threshold enters EMERGENCY with both limits at the floor and clears both timers |
| GovernorModes.EmergencyHolds | linux/turbomac/daemon/governor.py:240-255 | in EMERGENCY no sample raises a limit; it ends exactly on a sample below the shed threshold after five seconds of them |
| GovernorModes.FallbackExactly | linux/turbomac/daemon/governor.py:168-219 | a dynamic governor is in FALLBACK after a step exactly when a readback failed, it waits for its retry, or no usable sample came for the stale timeout |
| GovernorModes.FallbackStays | linux/turbomac/daemon/governor.py:129-142 | entering FALLBACK commands the static cap, or what is commanded if that is less, for both terms; waiting commands nothing but the floor in an emergency |
| GovernorModes.CapMeans | linux/turbomac/daemon/governor.py:89-95 | a commanded limit is the least of the wanted one, 45 W and the firmware limit, for each term |
| GovernorModes.StaticCommandsCap | linux/turbomac/daemon/governor.py:199-204 | static mode commands the static cap for both terms |
| GovernorModes.OffCommandsOnce | linux/turbomac/daemon/governor.py:160-165 | switching off commands the static cap once |
| GovernorModes.LiveWritesExactly | linux/turbomac/daemon/governor.py:92-104 | a running governor writes exactly when a limit changes or the last write is ten seconds old; one that starts or leaves FALLBACK always does |
| GovernorModes.StaticWritesExactly | linux/turbomac/daemon/governor.py:92-104 | the same in static mode |
| GovernorModes.SecondLimit | linux/turbomac/daemon/governor.py:268-272 | PL2 is PL1 plus the burst outside an emergency, and PL1 in one, within its caps |
| GovernorModes.BlindHolds | linux/turbomac/daemon/governor.py:211-231 | without a usable sample, but not for long yet, phase, timers and limit stay, under the thermal ceiling |
| GovernorDwells.RaiseTakesCalm | linux/turbomac/daemon/governor.py:256-267 | in every run from the start PL1 goes up only on a calm sample after a recovery interval in which every usable sample was calm |
| GovernorDwells.EmergencyTakesHold | linux/turbomac/daemon/governor.py:250-255 | in every run from the start an emergency ends, other than in FALLBACK, only after five seconds in which every usable sample was below the shed threshold |
| GovernorDwells.ThermalStep | linux/turbomac/daemon/governor.py:106-127 | at least a thermal interval after the last one, a hot package lowers the ceiling a step from the lower of ceiling and PL1, at most to the floor, a cool one raises it a step; otherwise it stays; PL1 is under it |
| GovernorDwells.HotRun | linux/turbomac/daemon/governor.py:106-127 | n hot samples an interval apart lower PL1 by n thermal steps or to the floor, from where it may recover once in between |
| GovernorDwells.CoolRun | linux/turbomac/daemon/governor.py:106-127 | n cool samples an interval apart raise the ceiling by n thermal steps or to the top |
| GovernorDwells.BackoffStep | linux/turbomac/daemon/governor.py:168-184 | failed readbacks back off by 1, 2, 4, 8, 8 seconds and schedule the retry by it; a good one outside FALLBACK starts over |
| GovernorDwells.Resumes | linux/turbomac/daemon/governor.py:222-230 | governing starts from the static cap, and after FALLBACK from the fallback limit, under the thermal ceiling |
| GovernorDaemon.StepWork.Write | linux/turbomac/daemon/governor.py:92-104 | the mutable working copy computes the clamped, deduplicated write |
| GovernorDaemon.StepWork.ThermalCeiling | linux/turbomac/daemon/governor.py:106-127 | and the thermal ceiling |
| GovernorDaemon.StepWork.FallBack | linux/turbomac/daemon/governor.py:129-142 | and the entry into FALLBACK |
| GovernorDaemon.StepWork.Govern | linux/turbomac/daemon/governor.py:219-272 | and the dynamic rules |
| GovernorDaemon.ComputeStep | linux/turbomac/daemon/governor.py:145-272 | the step in the form of the code computes the step function the theorems are about |
| GovernorDaemon.Daemon.Apply | linux/turbomac/daemon/main.py:258-276 | one action applied to the registers |
| GovernorDaemon.Daemon.DoTick | linux/turbomac/daemon/main.py:192-197 | the tick computes the tick function and keeps the agreement |
| PolicyRuns.BandStep | Daemon/Policy.cpp:240-291 | recovery moves one band per evaluate, timers of other bands are unset, an emergency condition reaches Emergency |
| PolicyRuns.RunTimersMatchBand | Daemon/Policy.cpp:240-291 | in every run each below-threshold timer is unset unless its band is the current one |
| PolicyRuns.ThirtySecondsToCruise | Daemon/Policy.cpp:240-291 | from any state right after an emergency condition, 5, 15 and 30 s pass before Shed, Guard and Cruise |
| PolicyRuns.EmergencyCools | Daemon/Policy.cpp:240-291 | in every run from the start, an emergency condition at a ready evaluate keeps the controller out of Shed for 5 s, out of Guard for 15 s and out of Cruise for 30 s |
| PolicyRuns.DwellHasStart | Daemon/Policy.cpp:162-172 | a running timer was started by an evaluate, and its condition held at every ready evaluate since |
| PolicyRuns.RecoveryTakesDwell | Daemon/Policy.cpp:240-291 | every recovery by a band follows a full dwell with its condition true throughout |
| PolicyBands.PressureMoves | Daemon/Policy.cpp:240-291 | in every run, pressure that lasts moves the controller: at or above the shed threshold for 1 s it is in Shed or above, at or above guard for 2 s out of Cruise, and below the thresholds for 5, 10 and 15 s it leaves Emergency, Shed and Guard |
| PolicyBands.EscalationTakesDwell | Daemon/Policy.cpp:240-266 | in every run, a move up without an emergency condition goes to Guard or Shed after at least 2 s or 1 s at or above that threshold |
| PolicyBands.RunTimersPast | Daemon/Policy.cpp:162-172 | no timer of an ordered run is ahead of its clock |
| PolicyFilters.DropOldIsRecent | Daemon/Policy.cpp:174-187 | popping from the front of an ordered deque keeps exactly the samples inside the window |
| PolicyFilters.WindowsOfRun | Daemon/Policy.cpp:54-83 | in every ordered run the three deques refine the full history of accepted samples |
| PolicyFilters.WindowsAfterEvaluation | Daemon/Policy.cpp:174-187 | after every evaluate they equal the accepted samples no older than 1, 2 and 10 s |
| PolicyFilters.SortCorrect | Daemon/Policy.cpp:146-160 | sorting gives an ascending permutation |
| PolicyFilters.MedianOfMajority | Daemon/Policy.cpp:146-160 | the median is in [a, b] whenever more than half of the values are |
| PolicyMeasures.MeanBetween | Daemon/Policy.cpp:332-341 | the mean lies where all values do |
| PolicyMeasures.PeakIsLargest | Daemon/Policy.cpp:364-373 | the envelope is the largest of the filtered package power and the samples |
| PolicyMeasures.InsideConcat | Daemon/Policy.cpp:343-362 | taking the samples inside a window is done sample by sample |
| PolicyMeasures.ObserveMeasures | Daemon/Policy.cpp:85-104 | an evaluate measures the mean input of 1 s, the median package power of 1 s, its peak of 2 s, the median capacity of 10 s and its shares, and is ready exactly when every window has a sample, both sources are at most 2 s old and there is a capacity |
| PolicyMeasures.SmcTaken | Daemon/Policy.cpp:54-70 | which SMC samples are taken, and what they change |
| PolicyMeasures.PackageTaken | Daemon/Policy.cpp:72-83 | which package samples are taken, and what they change |
| PolicyMeasures.Predicted | Daemon/Policy.cpp:107-115 | the predicted input is the larger of the rail estimate and the calibrated one, with the reserve on top |
| PolicyMeasures.SmoothedIs | Daemon/Policy.cpp:229-237 | the filter moves up with a time constant of 0.25 s and down with one of 5 s |
| PolicyMeasures.EstimateMoves | Daemon/Policy.cpp:196-238 | a new observation moves the estimate by the filter over at most 2 s; with the envelope 5 W above the filtered package power it does not move it up |
| PolicyFilters.NonCpuUpdate | Daemon/Policy.cpp:196-238 | the estimate changes at most once per SMC time, stays nonnegative and between its old value and the observation, and never rises behind the alignment gate |
| PolicyFilters.RunEstimates | Daemon/Policy.cpp:196-238 | at every call of every run: the estimate moves only at a ready evaluate with an unused SMC time, then between its old value and the observation and never up behind the alignment gate; it is never negative |
| PolicyFilters.OncePerSmcTime | Daemon/Policy.cpp:196-202 | in every run, two calls that take an observation do so for different SMC times, the later one for a later time |
| PolicyFilters.LimitsUpdate | Daemon/Policy.cpp:293-322 | floor <= PL1 <= ceiling, PL1 plus estimate plus reserve within the target and dead band or PL1 at the floor, raises of at most 1 W at least 1 s apart |
| PolicyMeasures.LimitsMove | Daemon/Policy.cpp:293-322 | PL1 goes down at once to what the band allows, up by at most a watt at the pace of 1, 2 or 5 s that the headroom sets, and stays within a quarter of a watt; PL2 adds the burst in Cruise |
| PolicyMeasures.FirstLimits | Daemon/Policy.cpp:299-302 | the first update takes PL1 to what the band allows |
| PolicyMeasures.OverBudgetExactly | Daemon/Policy.cpp:116-121 | over budget exactly in an emergency whose condition persists with PL1 at the floor |
| PolicyFilters.EvaluateLimits | Daemon/Policy.cpp:85-122 | the same for a whole evaluate; an emergency condition reaches Emergency and the floor in that call |
| PolicyFilters.RunLimited | Daemon/Policy.cpp:85-122 | at every call of every run: a ready evaluate leaves the limits in order, raises PL1 by at most 1 W at least 1 s after its last change, and answers an emergency condition at once; no other call moves PL1; the recorded time is that of the last change in the run |
| PolicyObject.GovernorPolicy.constructor | Daemon/Policy.cpp:30-52 | a new object is the fresh state |
| PolicyObject.GovernorPolicy.UpdateSMC | Daemon/Policy.cpp:54-70 | the object accepts and records exactly the samples the state function does |
| PolicyObject.GovernorPolicy.UpdatePackagePower | Daemon/Policy.cpp:72-83 | likewise for package power |
| PolicyObject.GovernorPolicy.ExpireSamples | Daemon/Policy.cpp:174-187 | the pop loops compute the expired windows |
| PolicyObject.GovernorPolicy.MedianOf | Daemon/Policy.cpp:146-160 | the median of the deque |
| PolicyObject.GovernorPolicy.UpdateNonCPU | Daemon/Policy.cpp:196-238 | the filter as a state update |
| PolicyObject.GovernorPolicy.UpdateBandAt | Daemon/Policy.cpp:240-291 | the band machine as a state update |
| PolicyObject.GovernorPolicy.Slew | Daemon/Policy.cpp:300-313 | the slew limiter as an update in place |
| PolicyObject.GovernorPolicy.UpdateLimitsAt | Daemon/Policy.cpp:293-322 | the limiter as a state update |
| PolicyObject.GovernorPolicy.EvaluateAt | Daemon/Policy.cpp:85-122 | evaluate computes the state function the run theorems are about |
| ConfigRules.CheckEach | linux/turbomac/config.py:162-167 | the first stage accepts exactly the passing updates, normalized, and rejects exactly the others |
| ConfigRules.CheckedExactly | linux/turbomac/config.py:130-148 | a value is accepted exactly when it is null where optional, a boolean for a flag, one of the choices, a number within its range but for a billionth, and integral where it must be; it is never changed |
| ConfigRules.KeysChecked | linux/turbomac/config.py:122-148 | only schema 1 and known keys with such a value are accepted, and the hard limit never is |
| ConfigRules.HoldsExactly | linux/turbomac/config.py:77-93 | what each kind of cross rule asks of two numbers |
| ConfigRules.Break | linux/turbomac/config.py:173-176 | a broken rule takes its updated keys out and reports exactly them, or both its keys if none is left |
| ConfigRules.Pass | linux/turbomac/config.py:169-177 | what one pass leaves, exactly which keys it reports, and that it is clean exactly when the merged configuration satisfies every rule |
| ConfigRules.OutOfPass | linux/turbomac/config.py:169-177 | an update is taken out by a pass exactly when the pass reports it |
| ConfigRules.OutsideIsOrphaned | linux/turbomac/config.py:173-176 | a key that is not updated is reported by a pass exactly where a broken rule that reads it has lost all its updated keys to rules before it |
| ConfigRules.DirtyPasses | linux/turbomac/config.py:168-179 | on a base that satisfies every rule, each dirty pass breaks a rule never broken before, so there are never more of them than rules |
| ConfigRules.Settle | linux/turbomac/config.py:168-179 | the passes made, ending with a clean one on a base that satisfies every rule, and exactly the keys they report |
| ConfigRules.PassesLeave | linux/turbomac/config.py:168-179 | the loop's passes leave exactly what the recursive definition of settling does |
| ConfigRules.PassesMade | linux/turbomac/config.py:168-179 | and report exactly what it does |
| ConfigRules.Validate | linux/turbomac/config.py:151-180 | the passes made, up to the first clean one or one more than there are rules, for every base; accepted is what they leave of the passing updates; every updated key but schema in exactly one result; a key rejected exactly when its own value is bad or some pass reports it; a key that was not updated rejected exactly where some pass orphans a rule that reads it; base plus accepted keeps every rule and bound; a consistent update set is accepted whole |
| ConfigTree.SplitJoin | linux/turbomac/config.py:188 | splitting a dotted key undoes joining its parts |
| ConfigTree.JoinSplit | linux/turbomac/config.py:188 | joining undoes splitting |
| ConfigTree.Flatten | linux/turbomac/config.py:103-112 | the flat form has exactly the dotted names of the scalars, each with the value of a scalar of that name; where no name holds a dot, exactly its own |
| ConfigTree.FlatIsUnique | linux/turbomac/config.py:103-112 | there is one flat form |
| ConfigTree.AtPut | linux/turbomac/config.py:189-191 | one applied update puts its value at its path, leaves nothing below it, and changes no other scalar |
| ConfigTree.ApplyUpdates | linux/turbomac/config.py:183-192 | for any updates in any order: raises exactly when an update meets a scalar on its way, and otherwise the flat form of the result is that of the configuration with one key after another assigned, also where a whole section is replaced |
| ConfigTree.FitsExactly | linux/turbomac/config.py:189-191 | an update can be applied exactly when no scalar of the flat form stands in its way |
| ConfigTree.OrderIsFree | linux/turbomac/config.py:183-192 | updates that do not run through each other give the same flat form in every order |
| ConfigTree.FromDict | linux/turbomac/config.py:195-200 | whatever the file holds, the configuration built is the defaults overridden by what validate accepts of the flat file, rejects exactly what validate rejects, has every key and satisfies every bound and rule; a consistent partial file is taken over whole, and a full good configuration is loaded unchanged |
| ConfigDefaults.DefaultsSound | linux/turbomac/config.py:17-95 | the shipped nested defaults flatten to every known key and the schema, each within its bounds, and satisfy every cross rule |
| ConfigDefaults.LoadConfig | linux/turbomac/config.py:195-200 | with the shipped defaults, every file is loaded into a full configuration within all bounds and rules: the defaults overridden by what validate accepts of it, with exactly its rejections |
| ConfigUse.LoadedGoverns | linux/turbomac/config.py:17-93 | whatever was loaded, the governor gets positive steps, intervals and limits, a floor within 45 W, and recovery, shed and emergency ratios and thermal thresholds in order: all its theorems rely on |
| ConfigUse.LoadedFans | linux/turbomac/config.py:17-93 | and the fan ladder gets rising thresholds, speeds in order and positive times |
| ConfigUse.LoadForControllers | linux/turbomac/config.py:195-200 | every file is loaded into a configuration fit for both |
| ConfigDefaults.RejectsWhatWasNotUpdated | linux/turbomac/config.py:173-176 | on the shipped defaults, updating fan.t1_c to 95 and fan.t2_c to 93 gets fan.t3_c rejected |
| FanLadder.TargetCoversDemand | linux/turbomac/daemon/fans.py:49-107 | whatever the history the target covers the memoryless demand within the cap; a missing input clears its rule |
| FanLadder.LadderStep | linux/turbomac/daemon/fans.py:76-89 | a drop is one step, below the release threshold, a full interval after its timer |
| FanLadder.LadderRun | linux/turbomac/daemon/fans.py:76-89 | no run brings the ladder down faster than one step per interval |
| FanLadder.ThreeIntervals | linux/turbomac/daemon/fans.py:76-89 | from the top step to none takes three intervals |
| FanLadder.DwellHasStart | linux/turbomac/daemon/fans.py:82-89 | a running release timer was started by one input, with the same step engaged and every later input below its threshold |
| FanLadder.ReleaseFollowsDwell | linux/turbomac/daemon/fans.py:53-89 | every release is one step, an interval after its timer's start, with every later input below the threshold; a full interval below it came before the release if and only if the starting input was below too or the input after it is an interval old |
| FanLadder.EarlyRelease | linux/turbomac/daemon/fans.py:87 | a run at the default thresholds releases a step without that interval |
| FanLadder.PowerRelease | linux/turbomac/daemon/fans.py:65-74 | the power rule is released only after a full interval below its threshold |
| FanLadder.StepReleased | linux/turbomac/daemon/fans.py:76-89 | a full interval below its release threshold takes the ladder under an engaged step |
| FanLadder.PowerReleased | linux/turbomac/daemon/fans.py:65-74 | a full interval below its release threshold turns the power rule off |
| FanLadder.CoolStep | linux/turbomac/daemon/fans.py:82-89 | an input below the threshold starts or keeps the timer, and releases the step at a full interval, starting the next timer |
| FanLadder.Engages | linux/turbomac/daemon/fans.py:65-89 | a threshold met engages its rule at once; between a threshold and its release threshold nothing changes but the timer, which stops |
| FanLadder.TargetIs | linux/turbomac/daemon/fans.py:91-107 | the floor asked for is the higher one of the engaged rules, within the cap, and 0 exactly when none is engaged |
| FanControl.LoadOrCapture | linux/turbomac/daemon/fans.py:176-226 | a file of plausible minimums is taken as it is, otherwise every plausible live value; each minimum is plausible or the known one, none is a floor already applied to a known fan, and every fan with a plausible live value or a known minimum has one |
| FanControl.PlausibleExactly | linux/turbomac/daemon/fans.py:176-226 | a minimum is plausible exactly when it is positive, not above the maximum and at most 500 rpm above the known 2160 and 2000 rpm of fans 1 and 2 |
| FanControl.FanController.constructor | linux/turbomac/daemon/fans.py:169-174 | the recorded floors are the values read, and the hardware minimums those chosen from the file and these values |
| FanControl.FanController.Clamp | linux/turbomac/daemon/fans.py:229-233 | the floor of a fan is between its hardware minimum and its highest floor, and covers the target as far as these allow |
| FanControl.FanController.Write | linux/turbomac/daemon/fans.py:235-248 | success exactly when the write and the readback work and the register is within 50 rpm and not above the maximum; other fans are untouched |
| FanControl.FanController.ApplyOne | linux/turbomac/daemon/fans.py:256-273 | a fan ends at its wanted floor, or with a failed write of just that value less than 30 s ago, and is not written again when already so |
| FanControl.FanController.Apply | linux/turbomac/daemon/fans.py:250-278 | all driven fans are settled for the target, the others are untouched, and a change is reported exactly when a new floor is recorded |
| FanControl.FanController.RecordInRange | linux/turbomac/daemon/fans.py:229-278 | after an apply every recorded floor is inside its clamp range and within 50 rpm of the hardware |
| FanControl.FanController.Restore | linux/turbomac/daemon/fans.py:280-306 | success exactly when every driven fan is recorded at its hardware minimum; otherwise its floor is unknown; on faithful hardware all hold it |
| FanControl.FanController.SetMode | linux/turbomac/daemon/fans.py:326-332 | a new mode forgets the ladder; the automatic one gives the fans back |
| FanControl.FanController.Tick | linux/turbomac/daemon/fans.py:334-348 | in floor mode the ladder advances and the fans are settled for its target; otherwise they are left or given back |
| FanControl.FanController.FloorCoversDemand | linux/turbomac/daemon/fans.py:334-348 | after a floor tick the hardware of a fan without a failed write covers the present demand, within its range and 50 rpm |
| ProfileText.IntRoundTrip | Daemon/Profile.cpp:100-109 | every 64-bit integer is read back from its decimal text, which is safe text |
| ProfileText.SafeTextExactly | Daemon/Profile.cpp:77-87 | text is allowed exactly when it has 1 to 256 characters, none of them a control character, a delete or an equals sign |
| ProfileText.ParsedWithSign | Daemon/Profile.cpp:100-109 | blanks, an optional sign and digits are read as their number, and refused beyond 64 bits |
| ProfileText.ParsedOnly | Daemon/Profile.cpp:100-109 | and nothing else is read as a whole number |
| ProfileText.MicroRoundTrip | Daemon/Profile.cpp:89-98 | every multiple of a millionth is read back from its "%.6f" text |
| ProfileText.MicroLength | Daemon/Profile.cpp:133-137 | numbers below 10^56, and negative ones above -10^55, are printed in full by the 64-byte buffer |
| ProfileText.ReadBackExactly | Daemon/Profile.cpp:89-137 | a nonnegative number is read back from what the 64-byte buffer leaves of it if and only if no digit before the point and no decimal but zeros is cut off |
| ProfileText.WholeSurvives | Daemon/Profile.cpp:133-137 | a whole number loses nothing in the print buffer if and only if it is below 10^63 |
| ProfileLines.ReadValues | Daemon/Profile.cpp:189-205 | the line loop computes the table function |
| ProfileLines.EntersExactly | Daemon/Profile.cpp:190-204 | a line that is neither blank nor a comment is taken exactly when it is a pair of allowed texts with a new key |
| ProfileLines.CollectText | Daemon/Profile.cpp:129-131 | reading lines written for distinct holdable pairs gives exactly the table of those pairs |
| Profile.Load | Daemon/Profile.cpp:182-280 | the loader computes the load function |
| Profile.SaveThenLoad | Daemon/Profile.cpp:294-324 | for every profile that is valid, loading what was saved gives it back, version 1 with the default ratios, if and only if its floor and ceilings lose nothing in print |
| Profile.SavedUnderKeys | Daemon/Profile.cpp:294-324 | in the lines of a saved profile each field is under its own key, and there is no other key |
| Profile.RoundTripExactly | Daemon/Profile.cpp:254-262 | it comes back unchanged if and only if, besides, it is of version 2 or has the default ratios |
| Profile.OrdinaryPowers | Daemon/Profile.cpp:133-137 | limits below 10^56 W lose nothing |
| Profile.DoublesLoadBack | Daemon/Profile.cpp:133-137 | a valid profile whose limits are doubles (whole from 2^53 on) loads back if and only if its ceilings are below 10^63 W |
| Profile.LargeCeilingLost | Daemon/Profile.cpp:133-137 | no valid profile with a second ceiling from 10^63 W on loads back |
| Profile.LostProfile | Daemon/Profile.cpp:133-137 | a valid profile with a second ceiling of 2^210 W does not load back |
| Profile.LostRatios | Daemon/Profile.cpp:254-262 | a valid version 1 profile with another emergency ratio loads back with the default one |
| Profile.LoadedIsValid | Daemon/Profile.cpp:358-411 | every accepted text gives a profile within all bounds and widths |
| Profile.RefusedExactly | Daemon/Profile.cpp:358-411 | a profile is refused exactly for another version, text that is not allowed, a number out of its range, numbers out of order, or times that do not fit the flags |
| Profile.LoadedFrom | Daemon/Profile.cpp:162-292 | an accepted text has at most 16 KiB and exactly the keys of its version, and each field of the profile is what its own key gives |
| Profile.DefaultRatios | Daemon/Profile.h:28-33 | the ratios version 1 stands for, and that a profile may have them |
| Profile.LoadSaveLoad | Daemon/Profile.cpp:162-324 | for every accepted text, saving the profile and loading it again changes nothing if and only if nothing is lost in print |

## Left out

- IOKit object lifetime, user-client dispatch, `stop`, CPUID and inline assembly: only their effect on the driver state is kept.
- The broadcast that reads the HWP enable bit on every CPU is one read, the bit being package-wide; the MSR accesses of one
  handler on its own CPU form one step of the interleaving, and the capabilities register is constant.
- Driver status, telemetry, restore counters, event text, reason strings and the time-in-state tables of the governors.
- Registers changed by anything but the driver between its writes, and a CPU set that changes.
- IEEE rounding in the governors, in fan temperatures and in the configuration: numbers are real; infinities are not
  configuration values.
- ConfigRules.Validate: a base whose values have the wrong type for a rule (where the original raises) is read as zero.
- FanControl.LoadOrCapture: the file is given as what it holds; writing it is not modelled.
- Profile numbers stand for the double nearest to them: a double that is not a multiple of a millionth is saved rounded, and
  the rounding is not modelled.
- Profile.Load: of the notations `strtod` accepts, exponents, hexadecimal, infinities and more than six decimals are refused
  by the model; file ownership, atomic replacement and the identity lookup are not modelled.
- Energy counters and their wrap-around, firmware capture, sysfs and SMC access, GPU switching, sockets, logging, incidents,
  calibration runs, command lines and user interfaces.
