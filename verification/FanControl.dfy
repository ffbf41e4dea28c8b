/** The fan controller: writes each fan's minimum speed, reads it back, and keeps a record of what the hardware holds.
    */
module FanControl {
  import opened Options
  import opened FanLadder

  const READBACK_TOL_RPM := 50
  const RETRY_S := 30.0

  /** The fan minimum registers. A write may be refused, lost or rounded to anything; a read may fail but never lies. On
      `faithful` hardware writes land exactly and reads succeed. */
  class FanHardware {
    const faithful: bool
    var min: map<int, int>

    constructor (faithful: bool, min: map<int, int>)
      ensures this.faithful == faithful && this.min == min
    {
      this.faithful, this.min := faithful, min;
    }

    method WriteMin(n: int, rpm: int) returns (ok: bool)
      requires n in min
      modifies this
      ensures min.Keys == old(min.Keys) && forall m | m in min && m != n :: min[m] == old(min)[m]
      ensures faithful ==> ok && min == old(min)[n := rpm]
    {
      ok := true;
      var stored := rpm;
      if !faithful {
        ok, stored := *, *;
      }
      min := min[n := stored];
    }

    method ReadMin(n: int) returns (r: Option<int>)
      requires n in min
      ensures r.Some? ==> r.value == min[n]
      ensures faithful ==> r.Some?
    {
      var ok := true;
      if !faithful {
        ok := *;
      }
      r := if ok then Some(min[n]) else None;
    }
  }

  datatype Mode = Unset | Auto | Floor

  // ----- The hardware minimums

  const KNOWN_HW_MIN: map<int, int> := map[1 := 2160, 2 := 2000]
  const CAPTURE_SLACK_RPM := 500

  /** Looks like a hardware minimum: positive, not above the maximum, not clearly a floor already applied. */
  predicate Plausible(n: int, v: int, max: Option<int>) {
    v > 0 && (max.Some? ==> v <= max.value) && (n in KNOWN_HW_MIN ==> v <= KNOWN_HW_MIN[n] + CAPTURE_SLACK_RPM)
  }

  /** The known minimums, and how much above them a value may be. */
  lemma PlausibleExactly(n: int, v: int, max: Option<int>)
    ensures Plausible(n, v, max) <==>
              && 1 <= v && (max.Some? ==> !(v > max.value))
              && (n == 1 ==> v <= 2660) && (n == 2 ==> v <= 2500)
    ensures n in KNOWN_HW_MIN <==> n in {1, 2}
    ensures KNOWN_HW_MIN[1] == 2160 && KNOWN_HW_MIN[2] == 2000
  {
  }

  /** The live value of fan `n` looks like a hardware minimum. */
  predicate PlausibleLive(n: int, fans: map<int, Option<int>>, live: map<int, Option<int>>) {
    n in fans && n in live && live[n].Some? && Plausible(n, live[n].value, fans[n])
  }

  /** The saved minimums if all are plausible, else the live ones if all are, else the plausible live ones with the
      known minimums in place of the others. `saved` is what a readable file holds. Either way no minimum is a floor
      already applied to a known fan, and where the file or the live values can be trusted every fan has one. */
  function LoadOrCapture(
    fans: map<int, Option<int>>, saved: Option<map<int, int>>, live: map<int, Option<int>>): (r: map<int, int>)
    ensures forall n | n in r ::
              n in fans && (Plausible(n, r[n], fans[n]) || (n in KNOWN_HW_MIN && r[n] == KNOWN_HW_MIN[n]))
    ensures forall n | n in r && n in KNOWN_HW_MIN :: r[n] <= KNOWN_HW_MIN[n] + CAPTURE_SLACK_RPM
    ensures forall n | PlausibleLive(n, fans, live) || (n in fans && n in KNOWN_HW_MIN) :: n in r
    ensures
      var good := saved.Some? && forall n | n in fans :: n in saved.value && Plausible(n, saved.value[n], fans[n]);
      && (good ==> forall n | n in fans :: n in r && r[n] == saved.value[n])
      && (!good ==> forall n | PlausibleLive(n, fans, live) :: r[n] == live[n].value)
  {
    if saved.Some? && forall n | n in fans :: n in saved.value && Plausible(n, saved.value[n], fans[n]) then
      map n | n in fans :: saved.value[n]
    else if forall n | n in fans :: PlausibleLive(n, fans, live) then map n | n in fans :: live[n].value
    else
      map n | n in fans && (PlausibleLive(n, fans, live) || n in KNOWN_HW_MIN) ::
        if PlausibleLive(n, fans, live) then live[n].value else KNOWN_HW_MIN[n]
  }

  function Abs(x: int): nat { if x < 0 then -x else x }

  class FanController {
    const hw: FanHardware
    const order: seq<int>              // the fan numbers, in the order they are visited
    const fans: map<int, Option<int>>  // the maximum speed of each fan, where it could be read
    const defaults: map<int, int>      // the captured hardware minimums; a fan may have none
    var written: map<int, Option<int>>
    var failed: map<int, (int, real)>
    var state: State
    var mode: Mode

    /** The fans this controller drives. */
    predicate Driven(n: int) { n in fans && n in defaults }

    /** The fans are visited once each, and a captured minimum is a plausible speed. */
    ghost predicate Numbered() {
      && (forall i, j | 0 <= i < j < |order| :: order[i] != order[j])
      && (forall n :: n in order <==> n in fans)
      && (forall n | n in defaults :: defaults[n] > 0)
    }

    /** Every recorded floor is what the hardware holds, up to rounding. */
    ghost predicate Truthful()
      reads this`written, hw
    {
      && (forall n | n in fans :: n in hw.min && n in written)
      && forall n | n in fans && written[n].Some? :: -50 <= hw.min[n] - written[n].value <= 50
    }

    /** A fan whose last write failed has no recorded floor, or was since found at its hardware minimum. */
    ghost predicate Accounted()
      reads this`written, this`failed
    {
      forall n | n in failed :: Driven(n) && n in written && (written[n] == None || written[n] == Some(defaults[n]))
    }

    ghost predicate Valid()
      reads this, hw
    {
      Numbered() && Truthful() && Accounted() && state.level <= 3
    }

    /** Discovery: the recorded floors are the values read, whatever they are. */
    constructor (hw: FanHardware, order: seq<int>, fans: map<int, Option<int>>, saved: Option<map<int, int>>)
      requires forall n :: (n in order <==> n in fans) && (n in fans ==> n in hw.min)
      requires forall i, j | 0 <= i < j < |order| :: order[i] != order[j]
      ensures Valid() && this.hw == hw && this.order == order && this.fans == fans
      ensures failed == map[] && state == INITIAL && mode == Unset && defaults == LoadOrCapture(fans, saved, written)
      ensures forall n | n in fans && written[n].Some? :: written[n].value == hw.min[n]
    {
      var live: map<int, Option<int>> := map[];
      for i := 0 to |order|
        invariant forall n :: n in live <==> n in order[..i]
        invariant forall n | n in live && live[n].Some? :: live[n].value == hw.min[n]
      {
        var r := hw.ReadMin(order[i]);
        live := live[order[i] := r];
        assert order[..i + 1] == order[..i] + [order[i]];
      }
      assert order[..|order|] == order;
      this.hw, this.order, this.fans, this.defaults := hw, order, fans, LoadOrCapture(fans, saved, live);
      this.written, this.failed, this.state, this.mode := live, map[], INITIAL, Unset;
    }

    /** The highest floor fan `n` may get. */
    function Highest(n: int, maxRpm: int): int
      requires n in fans && n in defaults
    {
      Max(defaults[n], if fans[n].Some? then Min(maxRpm, fans[n].value) else maxRpm)
    }

    /** The floor of fan `n` for a target. */
    function Clamp(n: int, target: int, maxRpm: int): (r: int)
      requires n in fans && n in defaults
      ensures defaults[n] <= r <= Highest(n, maxRpm)
      ensures target <= 0 ==> r == defaults[n]
      ensures target > 0 ==> r >= Min(target, Highest(n, maxRpm)) && (r > target ==> r == defaults[n])
    {
      if target <= 0 then defaults[n] else Min(Max(target, defaults[n]), Highest(n, maxRpm))
    }

    /** Write and read back. */
    method Write(n: int, rpm: int) returns (ok: bool, ghost seen: bool)
      requires n in fans && n in hw.min
      modifies hw
      ensures OthersKept(n)
      ensures ok <==> seen && -50 <= hw.min[n] - rpm <= 50 && (fans[n].Some? ==> hw.min[n] <= fans[n].value)
      ensures hw.faithful ==> seen
      ensures hw.faithful ==> hw.min[n] == rpm && ok == (fans[n].Some? ==> rpm <= fans[n].value)
    {
      var accepted := hw.WriteMin(n, rpm);
      if !accepted {
        return false, false;
      }
      var got := hw.ReadMin(n);
      seen := got.Some?;
      ok := got.Some? && Abs(got.value - rpm) <= READBACK_TOL_RPM && (fans[n].Some? ==> got.value <= fans[n].value);
    }

    /** Nothing but fan `n` changed. */
    twostate predicate OthersKept(n: int)
      reads this`written, this`failed, hw
    {
      && (forall m :: m in hw.min <==> m in old(hw.min))
      && (forall m | m in hw.min && m != n :: hw.min[m] == old(hw.min)[m])
      && (forall m | m != n ::
            (m in written <==> m in old(written)) && (m in written ==> written[m] == old(written)[m]))
      && (forall m | m != n :: (m in failed <==> m in old(failed)) && (m in failed ==> failed[m] == old(failed)[m]))
    }

    /** Write and keep the record. */
    method WriteRecorded(n: int, rpm: int) returns (ok: bool)
      requires Truthful() && Driven(n)
      modifies hw, this`written
      ensures Truthful() && OthersKept(n) && written[n] == if ok then Some(rpm) else None
      ensures hw.faithful ==> hw.min[n] == rpm && ok == (fans[n].Some? ==> rpm <= fans[n].value)
    {
      ghost var seen;
      ok, seen := Write(n, rpm);
      written := written[n := if ok then Some(rpm) else None];
    }

    /** Fan `n` is settled for its wanted floor: recorded at it, or with a failed write of just that value less than the
        retry time ago, and then its floor is unknown or was found at the hardware minimum by a restore. */
    ghost predicate SettledAt(n: int, want: int, now: real)
      reads this`written, this`failed
      requires Driven(n) && n in written
    {
      || written[n] == Some(want)
      || (&& n in failed && failed[n].0 == want && now - failed[n].1 < 30.0
          && (written[n] == None || written[n] == Some(defaults[n])))
    }

    /** One fan's turn. */
    method ApplyOne(n: int, want: int, now: real) returns (changed: bool)
      requires Valid() && Driven(n)
      modifies hw, this`written, this`failed
      ensures Valid() && OthersKept(n) && SettledAt(n, want, now)
      ensures changed ==> written[n] == Some(want) && n !in failed
      ensures changed <==> written[n] == Some(want) && old(written)[n] != Some(want)
      ensures !changed ==> written[n] == old(written)[n] || written[n] == None
      ensures old(SettledAt(n, want, now)) ==> hw.min == old(hw.min) && written == old(written) && failed == old(failed)
      ensures hw.faithful && old(!SettledAt(n, want, now)) && (fans[n].Some? ==> want <= fans[n].value) ==>
                changed && hw.min[n] == want
    {
      changed := false;
      if written[n] == Some(want) {
        return;
      }
      if n in failed && failed[n].0 == want && now - failed[n].1 < RETRY_S {
        return;
      }
      changed := WriteRecorded(n, want);
      if changed {
        failed := failed - {n};
      } else {
        failed := failed[n := (want, now)];
      }
    }

    /** The first `i` fans are settled for a target. */
    ghost predicate Settled(i: nat, target: int, maxRpm: int, now: real)
      reads this`written, this`failed
      requires i <= |order|
    {
      forall k | 0 <= k < i && Driven(order[k]) ::
        order[k] in written && SettledAt(order[k], Clamp(order[k], target, maxRpm), now)
    }

    /** A new floor is recorded for fan `n`. */
    twostate predicate Moved(n: int)
      reads this`written
    {
      n in written && written[n].Some? && (n in old(written) ==> written[n] != old(written)[n])
    }

    /** The next fan of an apply. */
    method ApplyNext(i: nat, target: int, maxRpm: int, now: real) returns (changed: bool)
      requires Valid() && i < |order| && Settled(i, target, maxRpm, now)
      modifies hw, this`written, this`failed
      ensures Valid() && Settled(i + 1, target, maxRpm, now) && OthersKept(order[i])
      ensures changed <==> Moved(order[i])
      ensures !changed ==> written[order[i]] == old(written)[order[i]] || written[order[i]] == None
      ensures !Driven(order[i]) ==> hw.min == old(hw.min) && written == old(written)
    {
      changed := false;
      var n := order[i];
      if n in defaults {
        changed := ApplyOne(n, Clamp(n, target, maxRpm), now);
      }
    }

    /** `apply`: afterwards every driven fan is settled for the target, and the others are as they were. */
    method Apply(target: int, maxRpm: int, now: real) returns (changed: bool)
      requires Valid()
      modifies hw, this`written, this`failed
      ensures Valid() && Settled(|order|, target, maxRpm, now)
      ensures changed <==> exists n :: n in fans && Moved(n)
      ensures !changed ==> forall n | n in fans :: written[n] == old(written)[n] || written[n] == None
      ensures forall n | n in old(hw.min) && !Driven(n) :: n in hw.min && hw.min[n] == old(hw.min)[n]
    {
      changed := false;
      for i := 0 to |order|
        invariant Valid() && Settled(i, target, maxRpm, now)
        invariant forall k | i <= k < |order| && order[k] in written && order[k] in old(written) ::
                    written[order[k]] == old(written)[order[k]]
        invariant changed <==> exists k :: 0 <= k < i && Moved(order[k])
        invariant !changed ==> forall n | n in fans :: written[n] == old(written)[n] || written[n] == None
        invariant forall n | n in old(hw.min) && !Driven(n) :: n in hw.min && hw.min[n] == old(hw.min)[n]
      {
        var c := ApplyNext(i, target, maxRpm, now);
        changed := changed || c;
      }
    }

    /** After an apply, every recorded floor of a driven fan is inside its clamp range and within the tolerance of what
        the hardware holds. */
    lemma RecordInRange(target: int, maxRpm: int, now: real, n: int)
      requires Valid() && Settled(|order|, target, maxRpm, now) && Driven(n) && written[n].Some?
      ensures defaults[n] <= written[n].value <= Highest(n, maxRpm)
      ensures -50 <= hw.min[n] - written[n].value <= 50
    {
      assert n in order;
      var k :| 0 <= k < |order| && order[k] == n;
    }

    /** The first `i` fans hold their hardware minimum, as far as reads and tolerance tell. */
    ghost predicate Restored(i: nat)
      reads this`written, hw
      requires i <= |order| && Truthful()
    {
      forall k | 0 <= k < i && Driven(order[k]) :: order[k] in written && written[order[k]] == Some(defaults[order[k]])
    }

    /** One fan's turn in a restore. */
    method RestoreOne(n: int) returns (ok: bool)
      requires Valid() && Driven(n)
      modifies hw, this`written, this`failed
      ensures Valid() && OthersKept(n) && written[n] == if ok then Some(defaults[n]) else None
      ensures hw.faithful ==> hw.min[n] == defaults[n] && (ok || (fans[n].Some? && fans[n].value < defaults[n]))
      ensures failed == old(failed) || (ok && failed == old(failed) - {n})
      ensures ok && old(hw.min)[n] != defaults[n] ==> n !in failed
    {
      var got := hw.ReadMin(n);
      if got == Some(defaults[n]) {
        written := written[n := Some(defaults[n])];
        return true;
      }
      ok := WriteRecorded(n, defaults[n]);
      if ok {
        failed := failed - {n};
      }
    }

    /** The first `i` fans have been seen to: each is recorded at its hardware minimum, or unknown. */
    ghost predicate Swept(i: nat)
      reads this`written, hw
      requires i <= |order|
    {
      forall k | 0 <= k < i && Driven(order[k]) ::
        && order[k] in written && order[k] in hw.min
        && (written[order[k]] == None || written[order[k]] == Some(defaults[order[k]]))
        && (hw.faithful ==> hw.min[order[k]] == defaults[order[k]])
    }

    /** The next fan of a restore. */
    method RestoreNext(i: nat) returns (ok: bool)
      requires Valid() && i < |order| && Swept(i)
      modifies hw, this`written, this`failed
      ensures Valid() && Swept(i + 1)
      ensures ok <==> (Driven(order[i]) ==> written[order[i]] == Some(defaults[order[i]]))
      ensures Restored(i) <==> old(Restored(i))
      ensures forall n | n in old(hw.min) && !Driven(n) :: n in hw.min && hw.min[n] == old(hw.min)[n]
    {
      ok := true;
      if order[i] in defaults {
        ok := RestoreOne(order[i]);
      }
    }

    /** `restore`: it reports success exactly when every driven fan is recorded at its hardware minimum. On faithful
        hardware every driven fan holds it exactly. */
    method Restore() returns (ok: bool)
      requires Valid()
      modifies hw, this`written, this`failed, this`state
      ensures Valid() && state == INITIAL && (ok <==> Restored(|order|)) && Swept(|order|)
      ensures forall n | n in old(hw.min) && !Driven(n) :: n in hw.min && hw.min[n] == old(hw.min)[n]
    {
      state := INITIAL;
      ok := true;
      for i := 0 to |order|
        invariant Valid() && state == INITIAL && (ok <==> Restored(i)) && Swept(i)
        invariant forall n | n in old(hw.min) && !Driven(n) :: n in hw.min && hw.min[n] == old(hw.min)[n]
      {
        var r := RestoreNext(i);
        ok := ok && r;
      }
    }

    /** What a sweep over all fans means for each. */
    lemma SweptAll(n: int)
      requires Valid() && Swept(|order|) && Driven(n)
      ensures written[n] == None || written[n] == Some(defaults[n])
      ensures hw.faithful ==> hw.min[n] == defaults[n]
    {
      assert n in order;
      var k :| 0 <= k < |order| && order[k] == n;
    }

    /** Every driven fan is at its hardware minimum or unknown. */
    ghost predicate Released()
      reads this`written
    {
      forall n | Driven(n) && n in written :: written[n] == None || written[n] == Some(defaults[n])
    }

    /** `_set_mode`: a new mode forgets the ladder; the automatic one gives the fans back. */
    method SetMode(m: Mode)
      requires Valid()
      modifies hw, this
      ensures Valid() && mode == m && state == INITIAL
      ensures m == Auto ==> Released() && (hw.faithful ==> forall n | Driven(n) :: hw.min[n] == defaults[n])
      ensures m != Auto ==> hw.min == old(hw.min) && written == old(written) && failed == old(failed)
    {
      mode, state := m, INITIAL;
      if m == Auto {
        var _ := Restore();
        forall n | Driven(n)
          ensures written[n] == None || written[n] == Some(defaults[n])
          ensures hw.faithful ==> hw.min[n] == defaults[n]
        {
          SweptAll(n);
        }
      }
    }

    /** `tick`. In floor mode the decision follows the ladder state (the initial one after a change of mode) and every
        driven fan is settled for it, so no recorded floor of a fan is below what the inputs alone ask for, within its
        range. */
    method Tick(m: Mode, cfg: Settings, x: Input, clock: real)
      requires Valid() && cfg.Valid() && m != Unset
      modifies hw, this
      ensures Valid() && mode == m
      ensures m == Floor && order != [] ==>
        var (s', target) := Decide(if old(mode) == Floor then old(state) else INITIAL, cfg, x);
        state == s' && Settled(|order|, target, cfg.maxRpm, clock)
      ensures m == Auto && old(mode) != Auto ==> Released()
      ensures m == Auto && old(mode) == Auto ==> hw.min == old(hw.min) && written == old(written)
    {
      if m != mode {
        SetMode(m);
      }
      if order == [] || mode != Floor {
        return;
      }
      var (s', target) := Decide(state, cfg, x);
      state := s';
      var _ := Apply(target, cfg.maxRpm, clock);
    }

    /** After a floor tick, a fan that is recorded, and not merely waiting for a retry, covers the present demand as
        far as its range and the cap allow; the hardware is within the tolerance of it. */
    lemma FloorCoversDemand(s: State, cfg: Settings, x: Input, clock: real, n: int)
      requires Valid() && cfg.Valid() && s.level <= 3 && Driven(n) && n in written && n !in failed
      requires Settled(|order|, Decide(s, cfg, x).1, cfg.maxRpm, clock)
      ensures written[n].Some? && hw.min[n] >= Min(Demand(cfg, x), Highest(n, cfg.maxRpm)) - 50
    {
      assert n in order;
      var k :| 0 <= k < |order| && order[k] == n;
      TargetCoversDemand(s, cfg, x);
      assert written[n].value >= Min(Decide(s, cfg, x).1, Highest(n, cfg.maxRpm));
    }
  }
}
