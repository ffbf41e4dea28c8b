/** What the controllers get from the configuration: whatever file was loaded, it is what they rely on. */
module ConfigUse {
  import opened Options
  import opened ConfigRules
  import opened ConfigTree
  import opened ConfigDefaults
  import Governor
  import FanLadder

  function NumberAt(f: Flat, section: string, name: string): real {
    var k := section + "." + name;
    if k in f && f[k].Num? then f[k].n else 0.0
  }

  function WholeAt(f: Flat, section: string, name: string): int { NumberAt(f, section, name).Floor }

  function OptionalAt(f: Flat, section: string, name: string): Option<real> {
    var k := section + "." + name;
    if k in f && f[k].Num? then Some(f[k].n) else None
  }

  function ModeAt(f: Flat): Governor.Mode {
    var v := if "governor" + "." + "mode" in f then f["governor" + "." + "mode"] else Null;
    if v == Text("off") then Governor.Off else if v == Text("static") then Governor.Static else Governor.Dynamic
  }

  /** The `governor` section as the governor reads it. */
  function GovernorConfig(f: Flat): Governor.Config {
    var s := "governor";
    Governor.Config(
      ModeAt(f), NumberAt(f, s, "static_cap_w"), NumberAt(f, s, "ceiling_w"), NumberAt(f, s, "floor_w"),
      NumberAt(f, s, "burst_w"), NumberAt(f, s, "shed_ratio"), NumberAt(f, s, "emergency_ratio"),
      NumberAt(f, s, "recover_ratio"), NumberAt(f, s, "cut_step_w"), NumberAt(f, s, "recover_step_w"),
      NumberAt(f, s, "recover_interval_s"), NumberAt(f, s, "stale_timeout_s"), OptionalAt(f, s, "thermal_trim_c"),
      NumberAt(f, s, "thermal_recover_c"), NumberAt(f, s, "thermal_step_w"), NumberAt(f, s, "thermal_interval_s"))
  }

  /** The `fan` section as the fan ladder reads it. */
  function FanSettings(f: Flat): FanLadder.Settings {
    var s := "fan";
    FanLadder.Settings(
      NumberAt(f, s, "power_floor_w"), WholeAt(f, s, "power_floor_rpm"),
      [NumberAt(f, s, "t1_c"), NumberAt(f, s, "t2_c"), NumberAt(f, s, "t3_c")],
      [WholeAt(f, s, "t1_rpm"), WholeAt(f, s, "t2_rpm"), WholeAt(f, s, "t3_rpm")],
      NumberAt(f, s, "hysteresis_c"), NumberAt(f, s, "step_down_interval_s"), WholeAt(f, s, "max_rpm"))
  }

  /** A configuration as it is loaded. */
  ghost predicate Loaded(base: Flat, f: Flat) {
    && Flattens(TreeOf(SECTIONS), "", base) && "schema" in base && Good(CROSS_RULES, SpecOf(SECTIONS), base, f)
  }

  lemma KeyHolds(base: Flat, f: Flat, section: string, name: string)
    requires Loaded(base, f) && section in SECTIONS && name in SECTIONS[section]
    ensures section + "." + name in f && Admits(SECTIONS[section][name].spec, f[section + "." + name])
  {
    var k := section + "." + name;
    SectionsProper();
    KnownByName(SECTIONS, section, name);
    KnownIsSpec(SECTIONS, k);
    FlatKeys(SECTIONS, base, k);
    assert RowOf(SECTIONS, k) == SECTIONS[section][name];
  }

  lemma NumberHolds(base: Flat, f: Flat, section: string, name: string, lo: real, hi: real)
    requires Loaded(base, f) && section in SECTIONS && name in SECTIONS[section]
    requires SECTIONS[section][name].spec in {Spec(Number(lo, hi), false), Spec(Whole(lo, hi), false)}
    ensures section + "." + name in f && f[section + "." + name].Num?
    ensures lo - 0.000000001 <= NumberAt(f, section, name) <= hi + 0.000000001
    ensures SECTIONS[section][name].spec.kind.Whole? ==> WholeAt(f, section, name) as real == NumberAt(f, section, name)
  {
    KeyHolds(base, f, section, name);
    var v := f[section + "." + name];
    if SECTIONS[section][name].spec.kind.Whole? {
      var k: int :| AsReal(k) == v.n;
    }
  }

  /** The key is in the section, with this range. */
  ghost predicate Ranges(section: string, name: string, lo: real, hi: real) {
    && section in SECTIONS && name in SECTIONS[section]
    && SECTIONS[section][name].spec in {Spec(Number(lo, hi), false), Spec(Whole(lo, hi), false)}
  }

  lemma GovernorRatios()
    ensures Ranges("governor", "shed_ratio", 0.7, 0.95) && Ranges("governor", "emergency_ratio", 0.73, 0.98)
    ensures Ranges("governor", "recover_ratio", 0.5, 0.9)
  {
    SectionsAre();
  }

  lemma GovernorWatts()
    ensures Ranges("governor", "static_cap_w", 10.0, 45.0) && Ranges("governor", "ceiling_w", 10.0, 45.0)
    ensures Ranges("governor", "floor_w", 9.0, 20.0) && Ranges("governor", "burst_w", 0.0, 5.0)
  {
    SectionsAre();
  }

  /** A key of one of two merged maps. */
  lemma Merged(a: map<string, Row>, b: map<string, Row>, name: string)
    ensures name in a && name !in b ==> name in a + b && (a + b)[name] == a[name]
    ensures name in b ==> name in a + b && (a + b)[name] == b[name]
  {
  }

  lemma StepSpecs()
    ensures "cut_step_w" in GOVERNOR_STEPS && GOVERNOR_STEPS["cut_step_w"].spec == Spec(Number(1.0, 15.0), false)
    ensures "recover_step_w" in GOVERNOR_STEPS && GOVERNOR_STEPS["recover_step_w"].spec == Spec(Number(1.0, 5.0), false)
    ensures "thermal_step_w" in GOVERNOR_STEPS && GOVERNOR_STEPS["thermal_step_w"].spec == Spec(Number(0.5, 5.0), false)
    ensures "thermal_trim_c" in GOVERNOR_STEPS
    ensures GOVERNOR_STEPS["thermal_trim_c"].spec == Spec(Number(80.0, 99.0), true)
  {
  }

  lemma TimeSpecs()
    ensures forall n | n in {"recover_interval_s", "thermal_interval_s"} ::
              n in GOVERNOR_STEPS && GOVERNOR_STEPS[n].spec == Spec(Number(1.0, 30.0), false)
    ensures "stale_timeout_s" in GOVERNOR_STEPS
    ensures GOVERNOR_STEPS["stale_timeout_s"].spec == Spec(Number(1.0, 10.0), false)
    ensures "thermal_recover_c" in GOVERNOR_STEPS
    ensures GOVERNOR_STEPS["thermal_recover_c"].spec == Spec(Number(70.0, 97.0), false)
  {
  }

  lemma StepNames()
    ensures "cut_step_w" !in GOVERNOR_LIMITS && "recover_step_w" !in GOVERNOR_LIMITS
    ensures "thermal_step_w" !in GOVERNOR_LIMITS && "thermal_trim_c" !in GOVERNOR_LIMITS
  {
  }

  lemma TimeNames()
    ensures "recover_interval_s" !in GOVERNOR_LIMITS && "thermal_interval_s" !in GOVERNOR_LIMITS
    ensures "stale_timeout_s" !in GOVERNOR_LIMITS && "thermal_recover_c" !in GOVERNOR_LIMITS
  {
  }

  lemma GovernorSteps()
    ensures Ranges("governor", "cut_step_w", 1.0, 15.0) && Ranges("governor", "recover_step_w", 1.0, 5.0)
    ensures Ranges("governor", "thermal_step_w", 0.5, 5.0)
    ensures "governor" in SECTIONS && "thermal_trim_c" in SECTIONS["governor"]
    ensures SECTIONS["governor"]["thermal_trim_c"].spec == Spec(Number(80.0, 99.0), true)
  {
    SectionsAre();
    StepSpecs();
    StepNames();
    Merged(GOVERNOR_STEPS, GOVERNOR_LIMITS, "cut_step_w");
    Merged(GOVERNOR_STEPS, GOVERNOR_LIMITS, "recover_step_w");
    Merged(GOVERNOR_STEPS, GOVERNOR_LIMITS, "thermal_step_w");
    Merged(GOVERNOR_STEPS, GOVERNOR_LIMITS, "thermal_trim_c");
  }

  lemma GovernorTimes()
    ensures Ranges("governor", "recover_interval_s", 1.0, 30.0) && Ranges("governor", "thermal_interval_s", 1.0, 30.0)
    ensures Ranges("governor", "stale_timeout_s", 1.0, 10.0) && Ranges("governor", "thermal_recover_c", 70.0, 97.0)
  {
    SectionsAre();
    TimeSpecs();
    TimeNames();
    Merged(GOVERNOR_STEPS, GOVERNOR_LIMITS, "recover_interval_s");
    Merged(GOVERNOR_STEPS, GOVERNOR_LIMITS, "thermal_interval_s");
    Merged(GOVERNOR_STEPS, GOVERNOR_LIMITS, "stale_timeout_s");
    Merged(GOVERNOR_STEPS, GOVERNOR_LIMITS, "thermal_recover_c");
  }

  /** The key is in the section, with this range of whole numbers. */
  ghost predicate WholeRange(section: string, name: string, lo: real, hi: real) {
    Ranges(section, name, lo, hi) && SECTIONS[section][name].spec.kind.Whole?
  }

  lemma FanDegreeSpecs()
    ensures "t1_c" in FAN_STEPS && FAN_STEPS["t1_c"].spec == Spec(Number(50.0, 99.0), false)
    ensures "t2_c" in FAN_STEPS && FAN_STEPS["t2_c"].spec == Spec(Number(50.0, 99.0), false)
    ensures "t3_c" in FAN_STEPS && FAN_STEPS["t3_c"].spec == Spec(Number(50.0, 99.0), false)
  {
  }

  lemma FanSpeedSpecs()
    ensures "t1_rpm" in FAN_STEPS && FAN_STEPS["t1_rpm"].spec == Spec(Whole(2000.0, 5900.0), false)
    ensures "t2_rpm" in FAN_STEPS && FAN_STEPS["t2_rpm"].spec == Spec(Whole(2000.0, 5900.0), false)
    ensures "t3_rpm" in FAN_STEPS && FAN_STEPS["t3_rpm"].spec == Spec(Whole(2000.0, 5900.0), false)
  {
  }

  lemma FanDegrees()
    ensures Ranges("fan", "t1_c", 50.0, 99.0) && Ranges("fan", "t2_c", 50.0, 99.0) && Ranges("fan", "t3_c", 50.0, 99.0)
  {
    SectionsAre();
    FanDegreeSpecs();
    Merged(FAN_RULES, FAN_STEPS, "t1_c");
    Merged(FAN_RULES, FAN_STEPS, "t2_c");
    Merged(FAN_RULES, FAN_STEPS, "t3_c");
  }

  lemma FanSpeeds()
    ensures WholeRange("fan", "t1_rpm", 2000.0, 5900.0) && WholeRange("fan", "t2_rpm", 2000.0, 5900.0)
    ensures WholeRange("fan", "t3_rpm", 2000.0, 5900.0)
  {
    SectionsAre();
    FanSpeedSpecs();
    Merged(FAN_RULES, FAN_STEPS, "t1_rpm");
    Merged(FAN_RULES, FAN_STEPS, "t2_rpm");
    Merged(FAN_RULES, FAN_STEPS, "t3_rpm");
  }

  lemma FanRuleSpecs()
    ensures "power_floor_rpm" in FAN_RULES && FAN_RULES["power_floor_rpm"].spec == Spec(Whole(2000.0, 5900.0), false)
    ensures "hysteresis_c" in FAN_RULES && FAN_RULES["hysteresis_c"].spec == Spec(Number(2.0, 15.0), false)
    ensures "step_down_interval_s" in FAN_RULES
    ensures FAN_RULES["step_down_interval_s"].spec == Spec(Number(5.0, 120.0), false)
    ensures "max_rpm" in FAN_RULES && FAN_RULES["max_rpm"].spec == Spec(Whole(2500.0, 5900.0), false)
  {
  }

  lemma FanRuleNames()
    ensures "power_floor_rpm" !in FAN_STEPS && "hysteresis_c" !in FAN_STEPS && "step_down_interval_s" !in FAN_STEPS
    ensures "max_rpm" !in FAN_STEPS
  {
  }

  lemma FanRanges()
    ensures WholeRange("fan", "power_floor_rpm", 2000.0, 5900.0) && WholeRange("fan", "max_rpm", 2500.0, 5900.0)
    ensures Ranges("fan", "hysteresis_c", 2.0, 15.0) && Ranges("fan", "step_down_interval_s", 5.0, 120.0)
  {
    SectionsAre();
    FanRuleSpecs();
    FanRuleNames();
    Merged(FAN_RULES, FAN_STEPS, "power_floor_rpm");
    Merged(FAN_RULES, FAN_STEPS, "max_rpm");
    Merged(FAN_RULES, FAN_STEPS, "hysteresis_c");
    Merged(FAN_RULES, FAN_STEPS, "step_down_interval_s");
  }

  // ----- What the rules add

  lemma RuleHolds(base: Flat, f: Flat, i: nat)
    requires Loaded(base, f) && i < |CROSS|
    ensures var r := CROSS[i].AsRule(); r.a in f && r.b in f && r.Holds(f)
  {
    assert CROSS_RULES[i] == CROSS[i].AsRule();
    assert CROSS_RULES[i].Holds(f);
  }

  lemma NumbersAre(base: Flat, f: Flat, section: string, name: string, lo: real, hi: real)
    requires Loaded(base, f) && Ranges(section, name, lo, hi)
    ensures section + "." + name in f && f[section + "." + name] == Num(NumberAt(f, section, name))
    ensures lo - 0.000000001 <= NumberAt(f, section, name) <= hi + 0.000000001
    ensures WholeRange(section, name, lo, hi) ==> WholeAt(f, section, name) as real == NumberAt(f, section, name)
  {
    NumberHolds(base, f, section, name, lo, hi);
  }

  /** Rule `i` is this one. */
  ghost predicate RuleIs(i: nat, section: string, x: string, y: string, relation: Relation) {
    i < |CROSS| && CROSS[i].section == section && CROSS[i].x == x && CROSS[i].y == y && CROSS[i].relation == relation
  }

  lemma GovernorRules()
    ensures RuleIs(0, "governor", "static_cap_w", "ceiling_w", AtMost(EPS))
    ensures RuleIs(1, "governor", "recover_ratio", "shed_ratio", AtMost(-0.05 + EPS))
    ensures RuleIs(2, "governor", "shed_ratio", "emergency_ratio", AtMost(-0.03 + EPS))
    ensures RuleIs(3, "governor", "thermal_recover_c", "thermal_trim_c", AtMostOrUnset(-2.0 + EPS))
  {
  }

  lemma FanRules()
    ensures RuleIs(4, "fan", "t1_c", "t2_c", Below) && RuleIs(5, "fan", "t2_c", "t3_c", Below)
    ensures RuleIs(6, "fan", "t1_rpm", "t2_rpm", AtMost(0.0)) && RuleIs(7, "fan", "t2_rpm", "t3_rpm", AtMost(0.0))
  {
  }

  /** A number of a section. */
  ghost predicate NumberIn(f: Flat, section: string, name: string) {
    section + "." + name in f && f[section + "." + name] == Num(NumberAt(f, section, name))
  }

  /** A rule between two numbers of a section. */
  lemma RuleBetween(base: Flat, f: Flat, i: nat, section: string, x: string, y: string, relation: Relation)
    requires Loaded(base, f) && RuleIs(i, section, x, y, relation)
    requires NumberIn(f, section, x) && NumberIn(f, section, y)
    ensures var a, b := NumberAt(f, section, x), NumberAt(f, section, y);
      match relation
      case AtMost(slack) => a <= b + slack
      case Below => a < b
      case AtMostOrUnset(gap) => a <= b + gap
  {
    RuleHolds(base, f, i);
  }

  lemma RangeRule(
    base: Flat, f: Flat, i: nat, section: string, x: string, y: string, relation: Relation,
    lx: real, hx: real, ly: real, hy: real)
    requires Loaded(base, f) && RuleIs(i, section, x, y, relation)
    requires Ranges(section, x, lx, hx) && Ranges(section, y, ly, hy)
    ensures var a, b := NumberAt(f, section, x), NumberAt(f, section, y);
      match relation
      case AtMost(slack) => a <= b + slack
      case Below => a < b
      case AtMostOrUnset(gap) => a <= b + gap
  {
    NumbersAre(base, f, section, x, lx, hx);
    NumbersAre(base, f, section, y, ly, hy);
    RuleBetween(base, f, i, section, x, y, relation);
  }

  lemma LimitOrder(base: Flat, f: Flat)
    requires Loaded(base, f)
    ensures NumberAt(f, "governor", "static_cap_w") <= NumberAt(f, "governor", "ceiling_w") + 0.000000001
  {
    GovernorRules();
    GovernorWatts();
    RangeRule(base, f, 0, "governor", "static_cap_w", "ceiling_w", AtMost(EPS), 10.0, 45.0, 10.0, 45.0);
  }

  lemma RatioOrder(base: Flat, f: Flat)
    requires Loaded(base, f)
    ensures NumberAt(f, "governor", "recover_ratio") <= NumberAt(f, "governor", "shed_ratio") - 0.05 + 0.000000001
    ensures NumberAt(f, "governor", "shed_ratio") <= NumberAt(f, "governor", "emergency_ratio") - 0.03 + 0.000000001
  {
    GovernorRules();
    GovernorRatios();
    RangeRule(base, f, 1, "governor", "recover_ratio", "shed_ratio", AtMost(-0.05 + EPS), 0.5, 0.9, 0.7, 0.95);
    RangeRule(base, f, 2, "governor", "shed_ratio", "emergency_ratio", AtMost(-0.03 + EPS), 0.7, 0.95, 0.73, 0.98);
  }

  lemma ThermalOrder(base: Flat, f: Flat)
    requires Loaded(base, f) && OptionalAt(f, "governor", "thermal_trim_c").Some?
    ensures NumberAt(f, "governor", "thermal_recover_c")
            <= NumberAt(f, "governor", "thermal_trim_c") - 2.0 + 0.000000001
  {
    GovernorRules();
    GovernorTimes();
    NumbersAre(base, f, "governor", "thermal_recover_c", 70.0, 97.0);
    RuleBetween(base, f, 3, "governor", "thermal_recover_c", "thermal_trim_c", AtMostOrUnset(-2.0 + EPS));
  }

  lemma DegreeOrder(base: Flat, f: Flat)
    requires Loaded(base, f)
    ensures NumberAt(f, "fan", "t1_c") < NumberAt(f, "fan", "t2_c") < NumberAt(f, "fan", "t3_c")
  {
    FanRules();
    FanDegrees();
    RangeRule(base, f, 4, "fan", "t1_c", "t2_c", Below, 50.0, 99.0, 50.0, 99.0);
    RangeRule(base, f, 5, "fan", "t2_c", "t3_c", Below, 50.0, 99.0, 50.0, 99.0);
  }

  lemma SpeedOrder(base: Flat, f: Flat)
    requires Loaded(base, f)
    ensures NumberAt(f, "fan", "t1_rpm") <= NumberAt(f, "fan", "t2_rpm") <= NumberAt(f, "fan", "t3_rpm")
  {
    FanRules();
    FanSpeeds();
    RangeRule(base, f, 6, "fan", "t1_rpm", "t2_rpm", AtMost(0.0), 2000.0, 5900.0, 2000.0, 5900.0);
    RangeRule(base, f, 7, "fan", "t2_rpm", "t3_rpm", AtMost(0.0), 2000.0, 5900.0, 2000.0, 5900.0);
  }

  /** The limits of the governor are in their ranges. */
  lemma GovernorBounds(base: Flat, f: Flat)
    requires Loaded(base, f)
    ensures var g := GovernorConfig(f);
      && g.staticCapW > 9.0 && g.ceilingW < 45.1 && 8.0 < g.floorW < 21.0 && g.burstW >= -0.000000001
      && 0.7 < g.emergencyRatio < 0.99
  {
    GovernorWatts();
    GovernorRatios();
    NumbersAre(base, f, "governor", "static_cap_w", 10.0, 45.0);
    NumbersAre(base, f, "governor", "ceiling_w", 10.0, 45.0);
    NumbersAre(base, f, "governor", "floor_w", 9.0, 20.0);
    NumbersAre(base, f, "governor", "burst_w", 0.0, 5.0);
    NumbersAre(base, f, "governor", "emergency_ratio", 0.73, 0.98);
  }

  lemma GovernorIntervals(base: Flat, f: Flat)
    requires Loaded(base, f)
    ensures var g := GovernorConfig(f);
      && g.cutStepW > 0.9 && g.recoverStepW > 0.9 && g.thermalStepW > 0.4
      && g.recoverIntervalS > 0.9 && g.thermalIntervalS > 0.9 && g.staleTimeoutS > 0.9
  {
    GovernorSteps();
    GovernorTimes();
    NumbersAre(base, f, "governor", "cut_step_w", 1.0, 15.0);
    NumbersAre(base, f, "governor", "recover_step_w", 1.0, 5.0);
    NumbersAre(base, f, "governor", "thermal_step_w", 0.5, 5.0);
    NumbersAre(base, f, "governor", "recover_interval_s", 1.0, 30.0);
    NumbersAre(base, f, "governor", "thermal_interval_s", 1.0, 30.0);
    NumbersAre(base, f, "governor", "stale_timeout_s", 1.0, 10.0);
  }

  /** Whatever was loaded, the governor gets what all its theorems rely on: ranges, and thresholds in order. */
  lemma LoadedGoverns(base: Flat, f: Flat)
    requires Loaded(base, f)
    ensures var g := GovernorConfig(f);
      && g.Sound() && g.staticCapW <= g.ceilingW + 0.000000001
      && g.recoverRatio < g.shedRatio < g.emergencyRatio < 0.99
      && (g.thermalTrimC.Some? ==> g.thermalRecoverC < g.thermalTrimC.value)
  {
    GovernorBounds(base, f);
    GovernorIntervals(base, f);
    LimitOrder(base, f);
    RatioOrder(base, f);
    if OptionalAt(f, "governor", "thermal_trim_c").Some? {
      ThermalOrder(base, f);
    }
  }

  lemma FanWholes(base: Flat, f: Flat)
    requires Loaded(base, f)
    ensures WholeAt(f, "fan", "t1_rpm") >= 2000
    ensures WholeAt(f, "fan", "t1_rpm") <= WholeAt(f, "fan", "t2_rpm") <= WholeAt(f, "fan", "t3_rpm")
  {
    FanSpeeds();
    SpeedOrder(base, f);
    NumbersAre(base, f, "fan", "t1_rpm", 2000.0, 5900.0);
    NumbersAre(base, f, "fan", "t2_rpm", 2000.0, 5900.0);
    NumbersAre(base, f, "fan", "t3_rpm", 2000.0, 5900.0);
  }

  lemma FanLimits(base: Flat, f: Flat)
    requires Loaded(base, f)
    ensures WholeAt(f, "fan", "power_floor_rpm") >= 2000 && WholeAt(f, "fan", "max_rpm") >= 2500
    ensures NumberAt(f, "fan", "hysteresis_c") > 1.9 && NumberAt(f, "fan", "step_down_interval_s") > 4.9
  {
    FanRanges();
    NumbersAre(base, f, "fan", "power_floor_rpm", 2000.0, 5900.0);
    NumbersAre(base, f, "fan", "max_rpm", 2500.0, 5900.0);
    NumbersAre(base, f, "fan", "hysteresis_c", 2.0, 15.0);
    NumbersAre(base, f, "fan", "step_down_interval_s", 5.0, 120.0);
  }

  /** And so does the fan ladder. */
  lemma LoadedFans(base: Flat, f: Flat)
    requires Loaded(base, f)
    ensures FanSettings(f).Valid()
  {
    DegreeOrder(base, f);
    FanWholes(base, f);
    FanLimits(base, f);
  }

  /** Every file: the configuration loaded from it, or the shipped one where it is no dictionary, is fit for both. */
  method LoadForControllers(raw: Node) returns (cfg: Node, rejected: map<string, string>, ghost flat: Flat)
    ensures Flattens(cfg, "", flat) && GovernorConfig(flat).Sound() && FanSettings(flat).Valid()
  {
    ghost var base, given;
    cfg, rejected, base, given, flat := LoadConfig(raw);
    LoadedGoverns(base, flat);
    LoadedFans(base, flat);
  }
}
