/** The calibration profile: its bounds, the text it is saved as, and the loader. Numbers are in millionths. */
module Profile {
  import opened Options
  import opened ProfileText
  import opened ProfileLines

  datatype Identity = Identity(
    hardwareUuid: string, model: string, cpuBrand: string, osVersion: string, osBuild: string,
    pdtrType: string, acpwType: string)

  datatype Powers = Powers(
    capacity: int, reserve: int, floor: int, ceiling1: int, ceiling2: int, burst: int, slope: int, intercept: int)

  datatype Ratios = Ratios(guard: int, shed: int, emergency: int, cruiseTarget: int, guardTarget: int, shedTarget: int)

  datatype Profile = Profile(
    schema: int, identity: Identity, powers: Powers, ratios: Ratios, points: int,
    passed: bool, autoArm: bool, calibratedAt: int, validatedAt: int)

  datatype Outcome = Loaded(profile: Profile) | Refused(reason: string)

  const DEFAULT_RATIOS := Ratios(566100, 654100, 729600, 566100, 522100, 478100)

  const MAX_SIZE := 16384
  const UINT32_MAX := 0xffff_ffff

  // ----- validate

  predicate ValidIdentity(d: Identity) {
    && SafeText(d.hardwareUuid) && SafeText(d.model) && SafeText(d.cpuBrand) && SafeText(d.osVersion)
    && SafeText(d.osBuild) && SafeText(d.pdtrType) && SafeText(d.acpwType)
  }

  predicate ValidPowers(w: Powers) {
    && 10_000000 <= w.capacity <= 250_000000 && 2_000000 <= w.reserve <= 20_000000
    && 1_000000 <= w.floor <= w.ceiling1 <= w.ceiling2 && 0 <= w.burst <= 20_000000
    && 250000 <= w.slope <= 4_000000 && -20_000000 <= w.intercept <= 100_000000
  }

  predicate ValidRatios(r: Ratios) {
    && 100000 <= r.guard < r.shed < r.emergency <= 950000
    && 50000 <= r.shedTarget < r.guardTarget < r.cruiseTarget <= r.guard
  }

  predicate Validate(p: Profile) {
    && (p.schema == 1 || p.schema == 2) && ValidIdentity(p.identity) && ValidPowers(p.powers) && ValidRatios(p.ratios)
    && p.points >= 1 && p.calibratedAt > 0
    && (if p.passed then p.validatedAt >= p.calibratedAt else p.validatedAt == 0)
    && (p.autoArm ==> p.passed)
  }

  /** A profile is refused exactly when it is of another version, some text is not allowed, a number is out of its
      range, two that must be in order are not, or the times do not fit the flags. */
  lemma RefusedExactly(p: Profile)
    ensures var w, r := p.powers, p.ratios;
      !Validate(p) <==>
      || !(p.schema == 1 || p.schema == 2) || !ValidIdentity(p.identity)
      || w.capacity < 10000000 || w.capacity > 250000000 || w.reserve < 2000000 || w.reserve > 20000000
      || w.floor < 1000000 || w.ceiling1 < w.floor || w.ceiling2 < w.ceiling1 || w.burst < 0 || w.burst > 20000000
      || w.slope < 250000 || w.slope > 4000000 || w.intercept < -20000000 || w.intercept > 100000000
      || r.guard < 100000 || r.guard >= r.shed || r.shed >= r.emergency || r.emergency > 950000
      || r.shedTarget < 50000 || r.shedTarget >= r.guardTarget || r.guardTarget >= r.cruiseTarget
      || r.cruiseTarget > r.guard || p.points < 1 || p.calibratedAt <= 0
      || (p.passed && p.validatedAt < p.calibratedAt) || (!p.passed && p.validatedAt != 0)
      || (p.autoArm && !p.passed)
  {
  }

  /** The ratios of version 1 are in order, and a profile may have them. */
  lemma DefaultRatios()
    ensures ValidRatios(DEFAULT_RATIOS)
    ensures var r := DEFAULT_RATIOS;
      && r.guard as real == 0.5661 * 1000000.0 && r.shed as real == 0.6541 * 1000000.0
      && r.emergency as real == 0.7296 * 1000000.0 && r.cruiseTarget == r.guard
      && r.guardTarget as real == 0.5221 * 1000000.0 && r.shedTarget as real == 0.4781 * 1000000.0
  {
  }

  /** The widths of the integer fields. */
  predicate InWidth(p: Profile) {
    p.points <= UINT32_MAX && p.calibratedAt <= INT64_MAX && p.validatedAt <= INT64_MAX
  }

  // ----- save

  function Number(v: int): string { Buffered(PrintMicro(v)) }

  function Truth(b: bool): string { if b then "true" else "false" }

  function IdentityPairs(p: Profile): seq<Pair> {
    [("schema_version", PrintInt(p.schema)), ("hardware_uuid", p.identity.hardwareUuid),
     ("model_identifier", p.identity.model),
     ("cpu_brand", p.identity.cpuBrand), ("os_product_version", p.identity.osVersion), ("os_build", p.identity.osBuild),
     ("smc_pdtr_type", p.identity.pdtrType), ("smc_acpw_type", p.identity.acpwType)]
  }

  function Printed(vs: seq<int>, show: int -> string): seq<string> {
    seq(|vs|, i requires 0 <= i < |vs| => show(vs[i]))
  }

  function Numbers(vs: seq<int>): seq<string> { Printed(vs, Number) }

  function Zip(ks: seq<string>, vs: seq<string>): seq<Pair>
    requires |ks| == |vs|
  {
    seq(|ks|, i requires 0 <= i < |ks| => (ks[i], vs[i]))
  }

  function PowerList(w: Powers): (r: seq<int>)
    ensures |r| == |POWER_KEYS|
  {
    [w.capacity, w.reserve, w.floor, w.ceiling1, w.ceiling2, w.burst, w.slope, w.intercept]
  }

  function RatioList(r: Ratios): (l: seq<int>)
    ensures |l| == |RATIO_KEYS|
  {
    [r.guard, r.shed, r.emergency, r.cruiseTarget, r.guardTarget, r.shedTarget]
  }

  function PowerPairs(w: Powers): seq<Pair> { Zip(POWER_KEYS, Numbers(PowerList(w))) }

  function RatioPairs(r: Ratios): seq<Pair> { Zip(RATIO_KEYS, Numbers(RatioList(r))) }

  function TailPairs(p: Profile): seq<Pair> {
    [("calibration_point_count", PrintInt(p.points)), ("validation_passed", Truth(p.passed)),
     ("auto_arm", Truth(p.autoArm)),
     ("calibrated_at", PrintInt(p.calibratedAt)), ("validated_at", PrintInt(p.validatedAt))]
  }

  function Pairs(p: Profile): seq<Pair> {
    IdentityPairs(p) + PowerPairs(p.powers) + (if p.schema == 2 then RatioPairs(p.ratios) else []) + TailPairs(p)
  }

  function Comment(p: Profile): string { "# TurboMac RAPL calibration profile v" + PrintInt(p.schema) }

  /** The text `save` writes. */
  function Content(p: Profile): string { Comment(p) + "\n" + Text(Pairs(p)) }

  // ----- load

  const IDENTITY_KEYS := [
    "schema_version", "hardware_uuid", "model_identifier", "cpu_brand", "os_product_version", "os_build",
    "smc_pdtr_type", "smc_acpw_type"]

  const POWER_KEYS := [
    "calibrated_capacity_w", "reserve_w", "rapl_floor_w", "rapl_ceiling_pl1_w", "rapl_ceiling_pl2_w",
    "cruise_pl2_burst_w", "package_to_input_slope", "package_to_input_intercept_w"]

  const RATIO_KEYS := [
    "guard_ratio", "shed_ratio", "emergency_ratio", "cruise_target_ratio", "guard_target_ratio", "shed_target_ratio"]

  const TAIL_KEYS := ["calibration_point_count", "validation_passed", "auto_arm", "calibrated_at", "validated_at"]

  function Expected(schema: int): seq<string> {
    IDENTITY_KEYS + POWER_KEYS + (if schema == 2 then RATIO_KEYS else []) + TAIL_KEYS
  }

  /** `values[key]`: a missing key reads as empty. */
  function Lookup(t: Table, k: string): string { if k in t then t[k] else "" }

  function ReadIdentity(t: Table): Identity {
    Identity(Lookup(t, "hardware_uuid"), Lookup(t, "model_identifier"), Lookup(t, "cpu_brand"),
             Lookup(t, "os_product_version"), Lookup(t, "os_build"), Lookup(t, "smc_pdtr_type"),
             Lookup(t, "smc_acpw_type"))
  }

  /** The numbers under some keys; none if one of them is not a number. */
  function ReadWith(t: Table, ks: seq<string>, parse: string -> Option<int>): (r: Option<seq<int>>)
    ensures r.Some? ==> |r.value| == |ks|
  {
    if ks == [] then Some([])
    else
      var first, rest := parse(Lookup(t, ks[0])), ReadWith(t, ks[1..], parse);
      if first.None? || rest.None? then None else Some([first.value] + rest.value)
  }

  function ReadNumbers(t: Table, ks: seq<string>): (r: Option<seq<int>>)
    ensures r.Some? ==> |r.value| == |ks|
  {
    ReadWith(t, ks, ParseMicro)
  }

  function ReadPowers(t: Table): Option<Powers> {
    match ReadNumbers(t, POWER_KEYS)
    case None => None
    case Some(v) => Some(Powers(v[0], v[1], v[2], v[3], v[4], v[5], v[6], v[7]))
  }

  function ReadRatios(t: Table): Option<Ratios> {
    match ReadNumbers(t, RATIO_KEYS)
    case None => None
    case Some(v) => Some(Ratios(v[0], v[1], v[2], v[3], v[4], v[5]))
  }

  predicate IsTruth(s: string) { s == "true" || s == "false" }

  /** The profile from what was read of each part. */
  function Assemble(
    schema: int, identity: Identity, powers: Option<Powers>, ratios: Option<Ratios>, points: Option<int>,
    passed: string, autoArm: string, calibratedAt: Option<int>, validatedAt: Option<int>): Outcome
  {
    if powers.None? || calibratedAt.None? || validatedAt.None? || !IsTruth(passed) || !IsTruth(autoArm) then
      Refused("profile contains an invalid value")
    else if ratios.None? then Refused("profile contains an invalid control policy")
    else if points.None? || points.value < 1 || points.value > UINT32_MAX then
      Refused("profile contains an invalid calibration point count")
    else
      var p := Profile(schema, identity, powers.value, ratios.value, points.value, passed == "true", autoArm == "true",
                       calibratedAt.value, validatedAt.value);
      if Validate(p) then Loaded(p) else Refused("calibration profile failed bounds validation")
  }

  function ReadFields(t: Table, schema: int): Outcome {
    Assemble(schema, ReadIdentity(t), ReadPowers(t), if schema == 2 then ReadRatios(t) else Some(DEFAULT_RATIOS),
             ParseInt(Lookup(t, "calibration_point_count")), Lookup(t, "validation_passed"), Lookup(t, "auto_arm"),
             ParseInt(Lookup(t, "calibrated_at")), ParseInt(Lookup(t, "validated_at")))
  }

  function Interpret(t: Table): Outcome {
    var schema := ParseInt(Lookup(t, "schema_version"));
    if "schema_version" !in t || schema.None? || (schema.value != 1 && schema.value != 2) then
      Refused("profile contains an unsupported schema version")
    else
      var expected := set k | k in Expected(schema.value);
      if |t| != |expected| then Refused("profile has missing or unexpected keys")
      else if !(t.Keys <= expected) then Refused("profile has an unexpected key")
      else ReadFields(t, schema.value)
  }

  /** What the loader makes of a text. */
  function LoadText(content: string): Outcome {
    if |content| > MAX_SIZE then Refused("profile is too large")
    else match Collect(Lines(content), map[])
      case Broken(reason) => Refused(reason)
      case Values(t) => Interpret(t)
  }

  method Load(content: string) returns (r: Outcome)
    ensures r == LoadText(content)
  {
    if |content| > MAX_SIZE {
      return Refused("profile is too large");
    }
    var values := ReadValues(content);
    match values {
      case Broken(reason) => return Refused(reason);
      case Values(t) => return Interpret(t);
    }
  }

  // ----- The keys

  lemma KeysDistinct(schema: int)
    ensures var ks := Expected(schema); forall i, j | 0 <= i < j < |ks| :: ks[i] != ks[j]
  {
  }

  /** A key the format can hold. */
  ghost predicate PlainKey(k: string) { SafeText(k) && k[0] != '#' && |k| <= 40 }

  ghost predicate PlainKeys(ks: seq<string>) { forall i | 0 <= i < |ks| :: PlainKey(ks[i]) }

  lemma PlainIdentityFirst(k: string)
    requires k == "schema_version" || k == "hardware_uuid" || k == "model_identifier" || k == "cpu_brand"
    ensures PlainKey(k)
  {
  }

  lemma PlainIdentityLast(k: string)
    requires k == "os_product_version" || k == "os_build" || k == "smc_pdtr_type" || k == "smc_acpw_type"
    ensures PlainKey(k)
  {
  }

  lemma IdentityKeysPlain()
    ensures PlainKeys(IDENTITY_KEYS)
  {
    forall i | 0 <= i < |IDENTITY_KEYS|
      ensures PlainKey(IDENTITY_KEYS[i])
    {
      if i < 4 {
        PlainIdentityFirst(IDENTITY_KEYS[i]);
      } else {
        PlainIdentityLast(IDENTITY_KEYS[i]);
      }
    }
  }

  lemma PlainPowerFirst(k: string)
    requires k == "calibrated_capacity_w" || k == "reserve_w" || k == "rapl_floor_w" || k == "rapl_ceiling_pl1_w"
    ensures PlainKey(k)
  {
  }

  lemma PlainPowerLast(k: string)
    requires k == "rapl_ceiling_pl2_w" || k == "cruise_pl2_burst_w" || k == "package_to_input_slope"
              || k == "package_to_input_intercept_w"
    ensures PlainKey(k)
  {
  }

  lemma PowerKeysPlain()
    ensures PlainKeys(POWER_KEYS)
  {
    forall i | 0 <= i < |POWER_KEYS|
      ensures PlainKey(POWER_KEYS[i])
    {
      if i < 4 {
        PlainPowerFirst(POWER_KEYS[i]);
      } else {
        PlainPowerLast(POWER_KEYS[i]);
      }
    }
  }

  lemma PlainRatioFirst(k: string)
    requires k == "guard_ratio" || k == "shed_ratio" || k == "emergency_ratio"
    ensures PlainKey(k)
  {
  }

  lemma PlainRatioLast(k: string)
    requires k == "cruise_target_ratio" || k == "guard_target_ratio" || k == "shed_target_ratio"
    ensures PlainKey(k)
  {
  }

  lemma RatioKeysPlain()
    ensures PlainKeys(RATIO_KEYS)
  {
    forall i | 0 <= i < |RATIO_KEYS|
      ensures PlainKey(RATIO_KEYS[i])
    {
      if i < 3 {
        PlainRatioFirst(RATIO_KEYS[i]);
      } else {
        PlainRatioLast(RATIO_KEYS[i]);
      }
    }
  }

  lemma PlainTailFirst(k: string)
    requires k == "calibration_point_count" || k == "validation_passed"
    ensures PlainKey(k)
  {
  }

  lemma PlainTailLast(k: string)
    requires k == "auto_arm" || k == "calibrated_at" || k == "validated_at"
    ensures PlainKey(k)
  {
  }

  lemma TailKeysPlain()
    ensures PlainKeys(TAIL_KEYS)
  {
    forall i | 0 <= i < |TAIL_KEYS|
      ensures PlainKey(TAIL_KEYS[i])
    {
      if i < 2 {
        PlainTailFirst(TAIL_KEYS[i]);
      } else {
        PlainTailLast(TAIL_KEYS[i]);
      }
    }
  }

  // ----- Groups of pairs

  /** The pairs have these keys, and values the format can hold. */
  ghost predicate Group(ps: seq<Pair>, ks: seq<string>) {
    && |ps| == |ks|
    && (forall i | 0 <= i < |ps| :: ps[i].0 == ks[i])
    && (forall i | 0 <= i < |ps| :: PlainKey(ps[i].0) && SafeText(ps[i].1))
  }

  lemma GroupAppend(ps: seq<Pair>, ks: seq<string>, qs: seq<Pair>, ls: seq<string>)
    requires Group(ps, ks) && Group(qs, ls)
    ensures Group(ps + qs, ks + ls)
  {
  }

  lemma IdentityGroup(p: Profile)
    requires Validate(p)
    ensures Group(IdentityPairs(p), IDENTITY_KEYS)
  {
    IdentityKeysPlain();
    IntRoundTrip(p.schema);
    IntLength(p.schema);
    assert IdentityPairs(p)[0].1 == PrintInt(p.schema);
  }

  /** Whatever is left of a printed number can be held. */
  lemma NumberSafe(v: int)
    requires v >= 0 || -1_000_000_000 < v
    ensures SafeText(Number(v))
  {
    if v >= 0 {
      ReadBackExactly(v);
    } else {
      SmallNumber(v);
    }
  }

  /** A number of ordinary size is printed in full and read back. */
  lemma SmallNumber(v: int)
    requires -1_000_000_000 < v < 1_000_000_000
    ensures SafeText(Number(v)) && ParseMicro(Number(v)) == Some(v)
  {
    Scale(0);
    Scale(3);
    Pow10Grows(9, 61);
    Pow10Grows(9, 62);
    MicroLength(v);
    MicroRoundTrip(v);
  }

  /** The table holds these pairs. */
  ghost predicate Holds(t: Table, ps: seq<Pair>) {
    forall i | 0 <= i < |ps| :: ps[i].0 in t && t[ps[i].0] == ps[i].1
  }

  lemma HoldsParts(t: Table, ps: seq<Pair>, qs: seq<Pair>)
    requires Holds(t, ps + qs)
    ensures Holds(t, ps) && Holds(t, qs)
  {
    assert forall i | 0 <= i < |ps| :: (ps + qs)[i] == ps[i];
    assert forall i | 0 <= i < |qs| :: (ps + qs)[|ps| + i] == qs[i];
  }

  /** Every one of these numbers leaves safe text. */
  ghost predicate Printable(vs: seq<int>) { forall i | 0 <= i < |vs| :: vs[i] >= 0 || -1_000_000_000 < vs[i] }

  lemma NumberGroup(ks: seq<string>, vs: seq<int>)
    requires PlainKeys(ks) && |ks| == |vs| && Printable(vs)
    ensures Group(Zip(ks, Numbers(vs)), ks)
  {
    var ps := Zip(ks, Numbers(vs));
    forall i | 0 <= i < |ps|
      ensures PlainKey(ps[i].0) && SafeText(ps[i].1)
    {
      assert ps[i] == (ks[i], Number(vs[i]));
      NumberSafe(vs[i]);
    }
  }

  lemma HoldsFirst(t: Table, ks: seq<string>, vs: seq<string>)
    requires |ks| == |vs| > 0 && Holds(t, Zip(ks, vs))
    ensures ks[0] in t && t[ks[0]] == vs[0] && Holds(t, Zip(ks[1..], vs[1..]))
  {
    var ps, rest := Zip(ks, vs), Zip(ks[1..], vs[1..]);
    assert ps[0] == (ks[0], vs[0]);
    assert forall i | 0 <= i < |rest| :: rest[i] == ps[i + 1];
  }

  ghost predicate All(vs: seq<int>, f: int -> bool) { vs == [] || (f(vs[0]) && All(vs[1..], f)) }

  /** Whatever the notation, numbers are read back exactly when each of them keeps its value in print. */
  lemma {:induction false} ReadPrinted(
    t: Table, ks: seq<string>, vs: seq<int>, show: int -> string, parse: string -> Option<int>, keep: int -> bool)
    requires |ks| == |vs| && Holds(t, Zip(ks, Printed(vs, show)))
    requires forall v :: keep(v) <==> parse(show(v)) == Some(v)
    ensures ReadWith(t, ks, parse) == Some(vs) <==> All(vs, keep)
  {
    if ks != [] {
      HoldsFirst(t, ks, Printed(vs, show));
      assert Printed(vs, show)[1..] == Printed(vs[1..], show);
      ReadPrinted(t, ks[1..], vs[1..], show, parse, keep);
      assert vs == [vs[0]] + vs[1..];
      assert keep(vs[0]) <==> parse(Lookup(t, ks[0])) == Some(vs[0]);
    }
  }

  /** A number is printed so that it is read back. */
  predicate Kept(v: int) { ParseMicro(Number(v)) == Some(v) }

  lemma NumbersRead(t: Table, ks: seq<string>, vs: seq<int>)
    requires |ks| == |vs| && Holds(t, Zip(ks, Numbers(vs)))
    ensures ReadNumbers(t, ks) == Some(vs) <==> All(vs, Kept)
  {
    ReadPrinted(t, ks, vs, Number, ParseMicro, Kept);
  }

  /** The numbers without an upper bound. */
  function Unbounded(w: Powers): seq<int> { [w.floor, w.ceiling1, w.ceiling2] }

  /** They lose nothing in the print buffer. */
  ghost predicate PowersSurvive(w: Powers) { All(Unbounded(w), Surviving) }

  /** Numbers below 10^56 W do not. */
  lemma OrdinaryPowers(w: Powers)
    requires ValidPowers(w) && w.ceiling2 < Pow10(62)
    ensures PowersSurvive(w)
  {
    OrdinaryList(Unbounded(w));
  }

  lemma {:induction false} OrdinaryList(vs: seq<int>)
    requires forall i | 0 <= i < |vs| :: 0 <= vs[i] < Pow10(62)
    ensures All(vs, Surviving)
  {
    if vs != [] {
      OrdinaryList(vs[1..]);
      OrdinarySurvives(vs[0]);
    }
  }

  lemma OrdinarySurvives(v: int)
    requires 0 <= v < Pow10(62)
    ensures Survives(v)
  {
    MicroLength(v);
    MicroRoundTrip(v);
    ReadBackExactly(v);
  }

  lemma {:induction false} AllConcat(a: seq<int>, b: seq<int>, f: int -> bool)
    ensures All(a + b, f) <==> All(a, f) && All(b, f)
  {
    if a == [] {
      assert a + b == b;
    } else {
      assert (a + b)[1..] == a[1..] + b;
      AllConcat(a[1..], b, f);
    }
  }

  lemma {:induction false} AllElements(vs: seq<int>, f: int -> bool)
    ensures All(vs, f) <==> forall i | 0 <= i < |vs| :: f(vs[i])
  {
    if vs != [] {
      AllElements(vs[1..], f);
      assert forall i | 0 < i < |vs| :: vs[i] == vs[1..][i - 1];
      assert forall i | 0 <= i < |vs| - 1 :: vs[1..][i] == vs[i + 1];
    }
  }

  predicate Small(v: int) { -1_000_000_000 < v < 1_000_000_000 }

  predicate Surviving(v: int) { v >= 0 && Survives(v) }

  lemma {:induction false} SmallKept(vs: seq<int>)
    requires All(vs, Small)
    ensures All(vs, Kept)
  {
    if vs != [] {
      SmallKept(vs[1..]);
      SmallNumber(vs[0]);
    }
  }

  lemma {:induction false} KeptExactly(vs: seq<int>)
    requires forall i | 0 <= i < |vs| :: vs[i] >= 0
    ensures All(vs, Kept) <==> All(vs, Surviving)
  {
    if vs != [] {
      KeptExactly(vs[1..]);
      ReadBackExactly(vs[0]);
    }
  }

  lemma MiddleDecides(a: seq<int>, b: seq<int>, c: seq<int>, keep: int -> bool)
    requires All(a, keep) && All(c, keep)
    ensures All(a + (b + c), keep) <==> All(b, keep)
  {
    AllConcat(b, c, keep);
    AllConcat(a, b + c, keep);
  }

  lemma SmallList(vs: seq<int>)
    requires forall i | 0 <= i < |vs| :: Small(vs[i])
    ensures All(vs, Kept)
  {
    AllElements(vs, Small);
    SmallKept(vs);
  }

  lemma ListKept(vs: seq<int>, a: seq<int>, b: seq<int>, c: seq<int>)
    requires vs == a + (b + c) && (forall i | 0 <= i < |b| :: b[i] >= 0)
    requires forall i | 0 <= i < |a| :: Small(a[i])
    requires forall i | 0 <= i < |c| :: Small(c[i])
    ensures All(vs, Kept) <==> All(b, Surviving)
  {
    SmallList(a);
    SmallList(c);
    KeptExactly(b);
    MiddleDecides(a, b, c, Kept);
  }

  lemma PowersMean(w: Powers)
    requires ValidPowers(w)
    ensures Printable(PowerList(w)) && (PowersSurvive(w) <==> All(PowerList(w), Kept))
  {
    ListKept(PowerList(w), [w.capacity, w.reserve], Unbounded(w), [w.burst, w.slope, w.intercept]);
  }

  lemma RatiosMean(r: Ratios)
    requires ValidRatios(r)
    ensures Printable(RatioList(r)) && All(RatioList(r), Kept)
  {
    SmallList(RatioList(r));
  }

  lemma PowersRead(w: Powers, t: Table)
    requires ValidPowers(w) && Holds(t, PowerPairs(w))
    ensures ReadPowers(t) == Some(w) <==> PowersSurvive(w)
  {
    PowersMean(w);
    NumbersRead(t, POWER_KEYS, PowerList(w));
    PowersFromList(t, w);
  }

  lemma PowersFromList(t: Table, w: Powers)
    ensures ReadPowers(t) == Some(w) <==> ReadNumbers(t, POWER_KEYS) == Some(PowerList(w))
  {
    if ReadPowers(t) == Some(w) {
      assert ReadNumbers(t, POWER_KEYS).value == PowerList(w);
    }
  }

  lemma RatiosRead(r: Ratios, t: Table)
    requires ValidRatios(r) && Holds(t, RatioPairs(r))
    ensures ReadRatios(t) == Some(r)
  {
    RatiosMean(r);
    NumbersRead(t, RATIO_KEYS, RatioList(r));
  }

  lemma IdentityRead(p: Profile, t: Table)
    requires Validate(p) && Holds(t, IdentityPairs(p))
    ensures "schema_version" in t && ParseInt(Lookup(t, "schema_version")) == Some(p.schema)
              && ReadIdentity(t) == p.identity
  {
    IntRoundTrip(p.schema);
    var ps := IdentityPairs(p);
    assert t[ps[0].0] == PrintInt(p.schema) && t[ps[1].0] == p.identity.hardwareUuid && t[ps[2].0] == p.identity.model;
    assert t[ps[3].0] == p.identity.cpuBrand && t[ps[4].0] == p.identity.osVersion && t[ps[5].0] == p.identity.osBuild;
    assert t[ps[6].0] == p.identity.pdtrType && t[ps[7].0] == p.identity.acpwType;
  }

  lemma TailGroup(p: Profile)
    requires Validate(p) && InWidth(p)
    ensures Group(TailPairs(p), TAIL_KEYS)
  {
    TailKeysPlain();
    IntRoundTrip(p.points);
    IntLength(p.points);
    IntRoundTrip(p.calibratedAt);
    IntLength(p.calibratedAt);
    IntRoundTrip(p.validatedAt);
    IntLength(p.validatedAt);
  }

  lemma TailRead(p: Profile, t: Table)
    requires Validate(p) && InWidth(p) && Holds(t, TailPairs(p))
    ensures ParseInt(Lookup(t, "calibration_point_count")) == Some(p.points)
    ensures ParseInt(Lookup(t, "calibrated_at")) == Some(p.calibratedAt)
    ensures ParseInt(Lookup(t, "validated_at")) == Some(p.validatedAt)
    ensures Lookup(t, "validation_passed") == Truth(p.passed) && Lookup(t, "auto_arm") == Truth(p.autoArm)
  {
    IntRoundTrip(p.points);
    IntRoundTrip(p.calibratedAt);
    IntRoundTrip(p.validatedAt);
    var ps := TailPairs(p);
    assert t[ps[0].0] == PrintInt(p.points) && t[ps[1].0] == Truth(p.passed) && t[ps[2].0] == Truth(p.autoArm);
    assert t[ps[3].0] == PrintInt(p.calibratedAt) && t[ps[4].0] == PrintInt(p.validatedAt);
  }

  // ----- Save, then load

  /** The profile a text of this schema can carry: version 1 has no ratios of its own. */
  function Carried(p: Profile): Profile {
    if p.schema == 2 then p else p.(ratios := DEFAULT_RATIOS)
  }

  /** What `save` accepts. */
  ghost predicate Savable(p: Profile) { Validate(p) && InWidth(p) }

  lemma AllGroups(p: Profile)
    requires Savable(p)
    ensures Group(Pairs(p), Expected(p.schema))
  {
    IdentityGroup(p);
    PowersMean(p.powers);
    PowerKeysPlain();
    NumberGroup(POWER_KEYS, PowerList(p.powers));
    RatiosMean(p.ratios);
    RatioKeysPlain();
    NumberGroup(RATIO_KEYS, RatioList(p.ratios));
    TailGroup(p);
    GroupAppend(IdentityPairs(p), IDENTITY_KEYS, PowerPairs(p.powers), POWER_KEYS);
    var ps, ks := IdentityPairs(p) + PowerPairs(p.powers), IDENTITY_KEYS + POWER_KEYS;
    if p.schema == 2 {
      GroupAppend(ps, ks, RatioPairs(p.ratios), RATIO_KEYS);
      GroupAppend(ps + RatioPairs(p.ratios), ks + RATIO_KEYS, TailPairs(p), TAIL_KEYS);
    } else {
      assert ps + [] == ps && ks + [] == ks;
      GroupAppend(ps, ks, TailPairs(p), TAIL_KEYS);
    }
  }

  /** What is made of the parts read, when the powers are read as `powers`. */
  function Reassembled(p: Profile, powers: Option<Powers>): Outcome {
    Assemble(p.schema, p.identity, powers, Some(Carried(p).ratios), Some(p.points), Truth(p.passed), Truth(p.autoArm),
             Some(p.calibratedAt), Some(p.validatedAt))
  }

  lemma ReassembledExactly(p: Profile, powers: Option<Powers>)
    requires Validate(p) && InWidth(p)
    ensures powers == Some(p.powers) ==> Reassembled(p, powers) == Loaded(Carried(p))
    ensures powers != Some(p.powers) ==>
              Reassembled(p, powers).Refused? || Reassembled(p, powers).profile.powers != p.powers
  {
  }

  lemma FieldsRead(p: Profile, t: Table)
    requires Savable(p) && Holds(t, Pairs(p))
    ensures ReadFields(t, p.schema) == Reassembled(p, ReadPowers(t))
    ensures ReadPowers(t) == Some(p.powers) <==> PowersSurvive(p.powers)
  {
    var middle := if p.schema == 2 then RatioPairs(p.ratios) else [];
    HoldsParts(t, IdentityPairs(p) + PowerPairs(p.powers) + middle, TailPairs(p));
    HoldsParts(t, IdentityPairs(p) + PowerPairs(p.powers), middle);
    HoldsParts(t, IdentityPairs(p), PowerPairs(p.powers));
    IdentityRead(p, t);
    PowersRead(p.powers, t);
    TailRead(p, t);
    if p.schema == 2 {
      RatiosRead(p.ratios, t);
    }
  }

  // ----- Which key carries which field

  /** The key has this value. */
  ghost predicate Carries(t: Table, k: string, v: string) { k in t && t[k] == v }

  ghost predicate CarriesIdentity(t: Table, d: Identity) {
    && Carries(t, "hardware_uuid", d.hardwareUuid) && Carries(t, "model_identifier", d.model)
    && Carries(t, "cpu_brand", d.cpuBrand) && Carries(t, "os_product_version", d.osVersion)
    && Carries(t, "os_build", d.osBuild) && Carries(t, "smc_pdtr_type", d.pdtrType)
    && Carries(t, "smc_acpw_type", d.acpwType)
  }

  ghost predicate CarriesPowers(t: Table, w: Powers) {
    && Carries(t, "calibrated_capacity_w", Number(w.capacity)) && Carries(t, "reserve_w", Number(w.reserve))
    && Carries(t, "rapl_floor_w", Number(w.floor)) && Carries(t, "rapl_ceiling_pl1_w", Number(w.ceiling1))
    && Carries(t, "rapl_ceiling_pl2_w", Number(w.ceiling2)) && Carries(t, "cruise_pl2_burst_w", Number(w.burst))
    && Carries(t, "package_to_input_slope", Number(w.slope))
    && Carries(t, "package_to_input_intercept_w", Number(w.intercept))
  }

  ghost predicate CarriesRatios(t: Table, r: Ratios) {
    && Carries(t, "guard_ratio", Number(r.guard)) && Carries(t, "shed_ratio", Number(r.shed))
    && Carries(t, "emergency_ratio", Number(r.emergency)) && Carries(t, "cruise_target_ratio", Number(r.cruiseTarget))
    && Carries(t, "guard_target_ratio", Number(r.guardTarget)) && Carries(t, "shed_target_ratio", Number(r.shedTarget))
  }

  ghost predicate CarriesTail(t: Table, p: Profile) {
    && Carries(t, "schema_version", PrintInt(p.schema)) && Carries(t, "calibration_point_count", PrintInt(p.points))
    && Carries(t, "validation_passed", if p.passed then "true" else "false")
    && Carries(t, "auto_arm", if p.autoArm then "true" else "false")
    && Carries(t, "calibrated_at", PrintInt(p.calibratedAt)) && Carries(t, "validated_at", PrintInt(p.validatedAt))
  }

  lemma IdentityCarried(t: Table, p: Profile)
    requires Holds(t, IdentityPairs(p))
    ensures CarriesIdentity(t, p.identity) && Carries(t, "schema_version", PrintInt(p.schema))
  {
    var ps := IdentityPairs(p);
    assert ps[0].0 in t && ps[1].0 in t && ps[2].0 in t && ps[3].0 in t;
    assert ps[4].0 in t && ps[5].0 in t && ps[6].0 in t && ps[7].0 in t;
  }

  lemma PowersCarried(t: Table, w: Powers)
    requires Holds(t, PowerPairs(w))
    ensures CarriesPowers(t, w)
  {
    var ps := PowerPairs(w);
    assert ps[0] == ("calibrated_capacity_w", Number(w.capacity)) && ps[1] == ("reserve_w", Number(w.reserve));
    assert ps[2] == ("rapl_floor_w", Number(w.floor)) && ps[3] == ("rapl_ceiling_pl1_w", Number(w.ceiling1));
    assert ps[4] == ("rapl_ceiling_pl2_w", Number(w.ceiling2)) && ps[5] == ("cruise_pl2_burst_w", Number(w.burst));
    assert ps[6] == ("package_to_input_slope", Number(w.slope));
    assert ps[7] == ("package_to_input_intercept_w", Number(w.intercept));
  }

  lemma RatiosCarried(t: Table, r: Ratios)
    requires Holds(t, RatioPairs(r))
    ensures CarriesRatios(t, r)
  {
    var ps := RatioPairs(r);
    assert ps[0] == ("guard_ratio", Number(r.guard)) && ps[1] == ("shed_ratio", Number(r.shed));
    assert ps[2] == ("emergency_ratio", Number(r.emergency));
    assert ps[3] == ("cruise_target_ratio", Number(r.cruiseTarget));
    assert ps[4] == ("guard_target_ratio", Number(r.guardTarget));
    assert ps[5] == ("shed_target_ratio", Number(r.shedTarget));
  }

  lemma TailCarried(t: Table, p: Profile)
    requires Holds(t, TailPairs(p)) && Carries(t, "schema_version", PrintInt(p.schema))
    ensures CarriesTail(t, p)
  {
    var ps := TailPairs(p);
    assert ps[0].0 in t && ps[1].0 in t && ps[2].0 in t && ps[3].0 in t && ps[4].0 in t;
  }

  /** In the lines of a saved profile each field is under its own key, and there is no other key. */
  lemma SavedUnderKeys(p: Profile) returns (t: Table)
    requires Savable(p)
    ensures Collect(Lines(Content(p)), map[]) == Values(t) && |t.Keys| == if p.schema == 2 then 27 else 21
    ensures CarriesIdentity(t, p.identity) && CarriesPowers(t, p.powers) && CarriesTail(t, p)
    ensures p.schema == 2 ==> CarriesRatios(t, p.ratios)
  {
    t := SavedIsCollected(p);
    PairsCarried(t, p);
    AllGroups(p);
    KeysRead(Pairs(p), Expected(p.schema), t);
    ExpectedCount(p.schema, t.Keys);
  }

  lemma ExpectedCount(schema: int, keys: set<string>)
    requires keys == set k | k in Expected(schema)
    ensures |keys| == if schema == 2 then 27 else 21
  {
    KeysDistinct(schema);
    DistinctCount(Expected(schema));
  }

  lemma PairsCarried(t: Table, p: Profile)
    requires Holds(t, Pairs(p))
    ensures CarriesIdentity(t, p.identity) && CarriesPowers(t, p.powers) && CarriesTail(t, p)
    ensures p.schema == 2 ==> CarriesRatios(t, p.ratios)
  {
    var middle := if p.schema == 2 then RatioPairs(p.ratios) else [];
    HoldsParts(t, IdentityPairs(p) + PowerPairs(p.powers) + middle, TailPairs(p));
    HoldsParts(t, IdentityPairs(p) + PowerPairs(p.powers), middle);
    HoldsParts(t, IdentityPairs(p), PowerPairs(p.powers));
    IdentityCarried(t, p);
    PowersCarried(t, p.powers);
    TailCarried(t, p);
    if p.schema == 2 {
      RatiosCarried(t, p.ratios);
    }
  }

  lemma {:induction false} DistinctCount(ks: seq<string>)
    requires forall i, j | 0 <= i < j < |ks| :: ks[i] != ks[j]
    ensures |set k | k in ks| == |ks|
  {
    if ks != [] {
      var n := |ks| - 1;
      DistinctCount(ks[..n]);
      assert (set k | k in ks) == (set k | k in ks[..n]) + {ks[n]};
    } else {
      assert (set k | k in ks) == {};
    }
  }

  /** The table of a saved profile has exactly the expected keys. */
  lemma KeysRead(ps: seq<Pair>, ks: seq<string>, t: Table)
    requires Group(ps, ks) && Filled(ps, t)
    ensures t.Keys == set k | k in ks
  {
    forall k | k in ks
      ensures k in t
    {
      var i :| 0 <= i < |ks| && ks[i] == k;
      assert ps[i].0 == k;
    }
  }

  lemma ContentSize(p: Profile)
    requires Savable(p)
    ensures |Content(p)| <= MAX_SIZE
  {
    AllGroups(p);
    IntLength(p.schema);
    TextLength(Pairs(p), 298);
  }

  lemma CommentSafe(p: Profile)
    requires Validate(p)
    ensures SafeChars(Comment(p)) && Comment(p)[0] == '#'
  {
    IntRoundTrip(p.schema);
    var head := "# TurboMac RAPL calibration profile v";
    assert SafeChars(head);
    assert forall i | 0 <= i < |Comment(p)| ::
        Comment(p)[i] == if i < |head| then head[i] else PrintInt(p.schema)[i - |head|];
  }

  /** The loader gets to the fields of a saved text. */
  lemma SavedIsRead(p: Profile) returns (t: Table)
    requires Savable(p)
    ensures Holds(t, Pairs(p)) && LoadText(Content(p)) == ReadFields(t, p.schema)
  {
    t := SavedIsCollected(p);
    ContentSize(p);
    AllGroups(p);
    KeysRead(Pairs(p), Expected(p.schema), t);
    SchemaRead(p, t);
    InterpretSaved(t, p.schema);
  }

  lemma SavedIsCollected(p: Profile) returns (t: Table)
    requires Savable(p)
    ensures Collect(Lines(Content(p)), map[]) == Values(t) && Filled(Pairs(p), t)
  {
    AllGroups(p);
    CommentSafe(p);
    KeysDistinct(p.schema);
    CollectCommented(Comment(p), Pairs(p));
    t := Collect(Lines(Content(p)), map[]).table;
  }

  lemma InterpretSaved(t: Table, schema: int)
    requires "schema_version" in t && ParseInt(Lookup(t, "schema_version")) == Some(schema)
    requires schema == 1 || schema == 2
    requires t.Keys == set k | k in Expected(schema)
    ensures Interpret(t) == ReadFields(t, schema)
  {
  }

  lemma SchemaRead(p: Profile, t: Table)
    requires Savable(p) && Holds(t, Pairs(p))
    ensures "schema_version" in t && ParseInt(Lookup(t, "schema_version")) == Some(p.schema)
  {
    var middle := if p.schema == 2 then RatioPairs(p.ratios) else [];
    HoldsParts(t, IdentityPairs(p) + PowerPairs(p.powers) + middle, TailPairs(p));
    HoldsParts(t, IdentityPairs(p) + PowerPairs(p.powers), middle);
    HoldsParts(t, IdentityPairs(p), PowerPairs(p.powers));
    IdentityRead(p, t);
  }

  /** Loading what was saved gives the profile back, a version 1 profile with the default ratios, exactly when the
      floor and the ceilings lose nothing in the print buffer. */
  lemma SaveThenLoad(p: Profile)
    requires Savable(p)
    ensures LoadText(Content(p)) == Loaded(Carried(p)) <==> PowersSurvive(p.powers)
  {
    var t := SavedIsRead(p);
    FieldsRead(p, t);
    ReassembledExactly(p, ReadPowers(t));
  }

  /** So the round trip is exact for version 2, and for version 1 with the default ratios, where nothing is lost in
      print. */
  lemma RoundTripExactly(p: Profile)
    requires Savable(p)
    ensures LoadText(Content(p)) == Loaded(p) <==>
              PowersSurvive(p.powers) && (p.schema == 2 || p.ratios == DEFAULT_RATIOS)
  {
    var t := SavedIsRead(p);
    FieldsRead(p, t);
    ReassembledExactly(p, ReadPowers(t));
  }

  /** Every double from 2^53 on is whole. */
  predicate WholeWhenLarge(v: int) {
    v >= 9007199254740992 * 1000000 ==> v % 1000000 == 0
  }

  /** So among the numbers a double can be, those below 10^63 W lose nothing in print, and no others. */
  lemma DoublesSurvive(v: int)
    requires v >= 0 && WholeWhenLarge(v)
    ensures Survives(v) <==> v < Pow10(63) * 1000000
  {
    if v % 1000000 == 0 {
      WholeSurvives(v);
    } else {
      Scale63(0);
      Pow10Grows(62, 63);
      assert Pow10(63) == 10 * Pow10(62);
      OrdinarySurvives(v);
    }
  }

  lemma AllOfThree(a: int, b: int, c: int)
    ensures All([a, b, c], Surviving) <==> Surviving(a) && Surviving(b) && Surviving(c)
  {
    var vs := [a, b, c];
    AllElements(vs, Surviving);
    assert vs[0] == a && vs[1] == b && vs[2] == c;
  }

  lemma DoublePowers(w: Powers)
    requires ValidPowers(w) && WholeWhenLarge(w.floor) && WholeWhenLarge(w.ceiling1) && WholeWhenLarge(w.ceiling2)
    ensures PowersSurvive(w) <==> w.ceiling2 < Pow10(63) * 1000000
  {
    DoublesSurvive(w.floor);
    DoublesSurvive(w.ceiling1);
    DoublesSurvive(w.ceiling2);
    AllOfThree(w.floor, w.ceiling1, w.ceiling2);
  }

  /** A profile of doubles loads back, version 1 with the default ratios, exactly when its ceilings are below 10^63 W.
      */
  lemma DoublesLoadBack(p: Profile)
    requires Savable(p) && WholeWhenLarge(p.powers.floor)
    requires WholeWhenLarge(p.powers.ceiling1) && WholeWhenLarge(p.powers.ceiling2)
    ensures LoadText(Content(p)) == Loaded(Carried(p)) <==> p.powers.ceiling2 < Pow10(63) * 1000000
  {
    SaveThenLoad(p);
    DoublePowers(p.powers);
  }

  /** A ceiling from 10^63 W on never loads back. */
  lemma LargeCeilingLost(p: Profile)
    requires Savable(p) && p.powers.ceiling2 >= Pow10(63) * 1000000
    ensures LoadText(Content(p)) != Loaded(Carried(p))
  {
    SaveThenLoad(p);
    ManyDigits(p.powers.ceiling2 / 1000000, 63);
    AllElements(Unbounded(p.powers), Surviving);
    assert Unbounded(p.powers)[2] == p.powers.ceiling2;
  }

  /** A profile with this version, these ratios and this second ceiling. */
  function Example(schema: int, ratios: Ratios, ceiling2: int): Profile {
    var identity := Identity("uuid", "MacPro7,1", "Xeon", "15.0", "24A335", "flt", "flt");
    var powers := Powers(100_000000, 5_000000, 10_000000, 20_000000, ceiling2, 5_000000, 1_000000, 0);
    Profile(schema, identity, powers, ratios, 3, false, false, 1, 0)
  }

  /** 2^210 W is a double. */
  const TWO_TO_210_W := 1645504557321206042154969182557350504982735865633579863348609024 * 1000000

  lemma ExampleIsSavable(schema: int, ratios: Ratios, ceiling2: int)
    requires schema in {1, 2} && ValidRatios(ratios) && ceiling2 >= 20_000000
    ensures Savable(Example(schema, ratios, ceiling2))
  {
  }

  /** A valid profile that does not load back. */
  lemma LostProfile()
    ensures var p := Example(2, DEFAULT_RATIOS, TWO_TO_210_W);
      Savable(p) && WholeWhenLarge(p.powers.ceiling2) && LoadText(Content(p)) != Loaded(p)
  {
    SixtyFourDigits();
    var p := Example(2, DEFAULT_RATIOS, TWO_TO_210_W);
    ExampleIsSavable(2, DEFAULT_RATIOS, TWO_TO_210_W);
    LargeCeilingLost(p);
    assert Carried(p) == p;
  }

  lemma SixtyFourDigits()
    ensures Pow10(63) * 1000000 <= TWO_TO_210_W && TWO_TO_210_W % 1000000 == 0 && TWO_TO_210_W > 20_000000
  {
    Scale63(0);
  }

  /** A valid profile of version 1 that loads back with other ratios. */
  lemma LostRatios()
    ensures var p := Example(1, DEFAULT_RATIOS.(emergency := 800000), 30_000000);
      Savable(p) && LoadText(Content(p)) == Loaded(p.(ratios := DEFAULT_RATIOS)) && LoadText(Content(p)) != Loaded(p)
  {
    var p := Example(1, DEFAULT_RATIOS.(emergency := 800000), 30_000000);
    ExampleIsSavable(1, p.ratios, 30_000000);
    ThirtyWatts();
    OrdinaryPowers(p.powers);
    SaveThenLoad(p);
  }

  lemma ThirtyWatts()
    ensures 30_000000 < Pow10(62)
  {
    Scale63(0);
  }

  lemma AssembledIsValid(
    schema: int, identity: Identity, powers: Option<Powers>, ratios: Option<Ratios>, points: Option<int>,
    passed: string, autoArm: string, calibratedAt: Option<int>, validatedAt: Option<int>)
    requires calibratedAt.Some? ==> calibratedAt.value <= INT64_MAX
    requires validatedAt.Some? ==> validatedAt.value <= INT64_MAX
    requires schema != 2 ==> ratios == Some(DEFAULT_RATIOS)
    ensures var r := Assemble(schema, identity, powers, ratios, points, passed, autoArm, calibratedAt, validatedAt);
      r.Loaded? ==> Validate(r.profile) && InWidth(r.profile) && r.profile == Carried(r.profile)
  {
  }

  lemma ParsedInRange(s: string)
    ensures ParseInt(s).Some? ==> -INT64_MAX - 1 <= ParseInt(s).value <= INT64_MAX
  {
  }

  lemma FieldsValid(t: Table, schema: int)
    ensures var r := ReadFields(t, schema); r.Loaded? ==>
              Validate(r.profile) && InWidth(r.profile) && r.profile == Carried(r.profile)
  {
    var at, until := Lookup(t, "calibrated_at"), Lookup(t, "validated_at");
    ParsedInRange(at);
    ParsedInRange(until);
    AssembledIsValid(schema, ReadIdentity(t), ReadPowers(t),
                     if schema == 2 then ReadRatios(t) else Some(DEFAULT_RATIOS),
                     ParseInt(Lookup(t, "calibration_point_count")), Lookup(t, "validation_passed"),
                     Lookup(t, "auto_arm"), ParseInt(at), ParseInt(until));
  }

  lemma InterpretIsFields(t: Table) returns (schema: int)
    ensures Interpret(t).Loaded? ==> Interpret(t) == ReadFields(t, schema)
  {
    var read := ParseInt(Lookup(t, "schema_version"));
    schema := if read.Some? then read.value else 0;
  }

  lemma LoadedIsValid(content: string)
    ensures var r := LoadText(content); r.Loaded? ==>
              Validate(r.profile) && InWidth(r.profile) && r.profile == Carried(r.profile)
  {
    match Collect(Lines(content), map[])
    case Broken(_) =>
    case Values(t) =>
      var schema := InterpretIsFields(t);
      FieldsValid(t, schema);
  }

  /** Whatever text was accepted, saving the profile and loading it again changes nothing, exactly when nothing is lost
      in print. */
  lemma LoadSaveLoad(content: string)
    ensures var r := LoadText(content);
      r.Loaded? ==> Savable(r.profile) && (LoadText(Content(r.profile)) == r <==> PowersSurvive(r.profile.powers))
  {
    var r := LoadText(content);
    LoadedIsValid(content);
    if r.Loaded? {
      SaveThenLoad(r.profile);
    }
  }

  // ----- What an accepted text says

  lemma {:induction false} ReadWithAt(t: Table, ks: seq<string>, parse: string -> Option<int>, i: nat)
    requires ReadWith(t, ks, parse).Some? && i < |ks|
    ensures parse(Lookup(t, ks[i])) == Some(ReadWith(t, ks, parse).value[i])
  {
    if i > 0 {
      ReadWithAt(t, ks[1..], parse, i - 1);
    }
  }

  /** The number under a key. */
  ghost predicate Gives(t: Table, k: string, v: int) { ParseMicro(Lookup(t, k)) == Some(v) }

  ghost predicate GivesPowers(t: Table, w: Powers) {
    && Gives(t, "calibrated_capacity_w", w.capacity) && Gives(t, "reserve_w", w.reserve)
    && Gives(t, "rapl_floor_w", w.floor) && Gives(t, "rapl_ceiling_pl1_w", w.ceiling1)
    && Gives(t, "rapl_ceiling_pl2_w", w.ceiling2) && Gives(t, "cruise_pl2_burst_w", w.burst)
    && Gives(t, "package_to_input_slope", w.slope) && Gives(t, "package_to_input_intercept_w", w.intercept)
  }

  ghost predicate GivesRatios(t: Table, r: Ratios) {
    && Gives(t, "guard_ratio", r.guard) && Gives(t, "shed_ratio", r.shed) && Gives(t, "emergency_ratio", r.emergency)
    && Gives(t, "cruise_target_ratio", r.cruiseTarget) && Gives(t, "guard_target_ratio", r.guardTarget)
    && Gives(t, "shed_target_ratio", r.shedTarget)
  }

  ghost predicate GivesRest(t: Table, p: Profile) {
    && p.identity == ReadIdentity(t) && ParseInt(Lookup(t, "schema_version")) == Some(p.schema)
    && ParseInt(Lookup(t, "calibration_point_count")) == Some(p.points) && 1 <= p.points < 4294967296
    && Lookup(t, "validation_passed") == (if p.passed then "true" else "false")
    && Lookup(t, "auto_arm") == (if p.autoArm then "true" else "false")
    && ParseInt(Lookup(t, "calibrated_at")) == Some(p.calibratedAt)
    && ParseInt(Lookup(t, "validated_at")) == Some(p.validatedAt)
  }

  lemma PowersGiven(t: Table)
    ensures ReadPowers(t).Some? ==> GivesPowers(t, ReadPowers(t).value)
  {
    if ReadPowers(t).Some? {
      forall i: nat | i < 8
        ensures ParseMicro(Lookup(t, POWER_KEYS[i])) == Some(ReadNumbers(t, POWER_KEYS).value[i])
      {
        ReadWithAt(t, POWER_KEYS, ParseMicro, i);
      }
      assert POWER_KEYS[0] == "calibrated_capacity_w" && POWER_KEYS[1] == "reserve_w";
      assert POWER_KEYS[2] == "rapl_floor_w" && POWER_KEYS[3] == "rapl_ceiling_pl1_w";
      assert POWER_KEYS[4] == "rapl_ceiling_pl2_w" && POWER_KEYS[5] == "cruise_pl2_burst_w";
      assert POWER_KEYS[6] == "package_to_input_slope" && POWER_KEYS[7] == "package_to_input_intercept_w";
    }
  }

  lemma RatiosGiven(t: Table)
    ensures ReadRatios(t).Some? ==> GivesRatios(t, ReadRatios(t).value)
  {
    if ReadRatios(t).Some? {
      forall i: nat | i < 6
        ensures ParseMicro(Lookup(t, RATIO_KEYS[i])) == Some(ReadNumbers(t, RATIO_KEYS).value[i])
      {
        ReadWithAt(t, RATIO_KEYS, ParseMicro, i);
      }
      assert RATIO_KEYS[0] == "guard_ratio" && RATIO_KEYS[1] == "shed_ratio" && RATIO_KEYS[2] == "emergency_ratio";
      assert RATIO_KEYS[3] == "cruise_target_ratio" && RATIO_KEYS[4] == "guard_target_ratio";
      assert RATIO_KEYS[5] == "shed_target_ratio";
    }
  }

  lemma FieldsGiven(t: Table, schema: int)
    requires ParseInt(Lookup(t, "schema_version")) == Some(schema)
    ensures var r := ReadFields(t, schema); r.Loaded? ==>
              && GivesRest(t, r.profile) && GivesPowers(t, r.profile.powers)
              && (if schema == 2 then GivesRatios(t, r.profile.ratios) else r.profile.ratios == DEFAULT_RATIOS)
  {
    PowersGiven(t);
    RatiosGiven(t);
    AssembledFrom(schema, ReadIdentity(t), ReadPowers(t),
                  if schema == 2 then ReadRatios(t) else Some(DEFAULT_RATIOS),
                  ParseInt(Lookup(t, "calibration_point_count")), Lookup(t, "validation_passed"),
                  Lookup(t, "auto_arm"), ParseInt(Lookup(t, "calibrated_at")), ParseInt(Lookup(t, "validated_at")));
  }

  /** Each part of an assembled profile is the part given. */
  lemma AssembledFrom(
    schema: int, identity: Identity, powers: Option<Powers>, ratios: Option<Ratios>, points: Option<int>,
    passed: string, autoArm: string, calibratedAt: Option<int>, validatedAt: Option<int>)
    ensures var r := Assemble(schema, identity, powers, ratios, points, passed, autoArm, calibratedAt, validatedAt);
      r.Loaded? ==>
        var p := r.profile;
        && p.schema == schema && p.identity == identity && powers == Some(p.powers) && ratios == Some(p.ratios)
        && points == Some(p.points) && 1 <= p.points < 4294967296
        && passed == (if p.passed then "true" else "false") && autoArm == (if p.autoArm then "true" else "false")
        && calibratedAt == Some(p.calibratedAt) && validatedAt == Some(p.validatedAt)
  {
  }

  /** An accepted text has at most 16 KiB and exactly the keys of its version, and each field of the profile is what its
      own key gives. */
  lemma LoadedFrom(content: string) returns (t: Table)
    requires LoadText(content).Loaded?
    ensures |content| <= 16384 && Collect(Lines(content), map[]) == Values(t)
    ensures var p := LoadText(content).profile;
      && p.schema in {1, 2} && t.Keys == (set k | k in Expected(p.schema))
      && GivesRest(t, p) && GivesPowers(t, p.powers)
      && (if p.schema == 2 then GivesRatios(t, p.ratios) else p.ratios == DEFAULT_RATIOS)
  {
    t := Collect(Lines(content), map[]).table;
    var schema := ParseInt(Lookup(t, "schema_version")).value;
    FieldsGiven(t, schema);
    SameSize(t.Keys, set k | k in Expected(schema));
  }

  lemma SameSize(a: set<string>, b: set<string>)
    requires a <= b && |a| == |b|
    ensures a == b
  {
    assert b == a + (b - a);
  }
}
