/** The configuration keys of the daemon: the nested dictionary of defaults, and the bounds of every key. */
module ConfigDefaults {
  import opened Options
  import opened ConfigRules
  import opened ConfigTree

  const EPP_CHOICES := ["default", "performance", "balance_performance", "balance_power", "power"]

  /** The bounds and the default of a key. */
  datatype Row = Row(spec: Spec, default: Value)

  const GOVERNOR_LIMITS: map<string, Row> := map[
    "mode" := Row(Spec(Choice(["off", "static", "dynamic"]), false), Text("static")),
    "static_cap_w" := Row(Spec(Number(10.0, 45.0), false), Num(35.0)),
    "ceiling_w" := Row(Spec(Number(10.0, 45.0), false), Num(45.0)),
    "floor_w" := Row(Spec(Number(9.0, 20.0), false), Num(10.0)),
    "burst_w" := Row(Spec(Number(0.0, 5.0), false), Num(0.0)),
    "shed_ratio" := Row(Spec(Number(0.7, 0.95), false), Num(0.88)),
    "emergency_ratio" := Row(Spec(Number(0.73, 0.98), false), Num(0.94)),
    "recover_ratio" := Row(Spec(Number(0.5, 0.9), false), Num(0.78))]

  const GOVERNOR_STEPS: map<string, Row> := map[
    "cut_step_w" := Row(Spec(Number(1.0, 15.0), false), Num(5.0)),
    "recover_step_w" := Row(Spec(Number(1.0, 5.0), false), Num(1.0)),
    "recover_interval_s" := Row(Spec(Number(1.0, 30.0), false), Num(3.0)),
    "stale_timeout_s" := Row(Spec(Number(1.0, 10.0), false), Num(2.0)),
    "thermal_trim_c" := Row(Spec(Number(80.0, 99.0), true), Num(97.0)),
    "thermal_recover_c" := Row(Spec(Number(70.0, 97.0), false), Num(92.0)),
    "thermal_step_w" := Row(Spec(Number(0.5, 5.0), false), Num(1.0)),
    "thermal_interval_s" := Row(Spec(Number(1.0, 30.0), false), Num(3.0))]

  const GOVERNOR := GOVERNOR_STEPS + GOVERNOR_LIMITS

  const GPU: map<string, Row> := map[
    "mode" := Row(Spec(Choice(["auto", "low", "off"]), false), Text("auto")),
    "cap_w" := Row(Spec(Number(5.0, 35.0), false), Num(15.0))]

  const FAN_STEPS: map<string, Row> := map[
    "t1_c" := Row(Spec(Number(50.0, 99.0), false), Num(78.0)),
    "t1_rpm" := Row(Spec(Whole(2000.0, 5900.0), false), Num(3500.0)),
    "t2_c" := Row(Spec(Number(50.0, 99.0), false), Num(84.0)),
    "t2_rpm" := Row(Spec(Whole(2000.0, 5900.0), false), Num(4500.0)),
    "t3_c" := Row(Spec(Number(50.0, 99.0), false), Num(90.0)),
    "t3_rpm" := Row(Spec(Whole(2000.0, 5900.0), false), Num(5900.0))]

  const FAN_RULES: map<string, Row> := map[
    "mode" := Row(Spec(Choice(["auto", "floor"]), false), Text("floor")),
    "power_floor_w" := Row(Spec(Number(10.0, 45.0), false), Num(25.0)),
    "power_floor_rpm" := Row(Spec(Whole(2000.0, 5900.0), false), Num(3500.0)),
    "hysteresis_c" := Row(Spec(Number(2.0, 15.0), false), Num(6.0)),
    "step_down_interval_s" := Row(Spec(Number(5.0, 120.0), false), Num(20.0)),
    "max_rpm" := Row(Spec(Whole(2500.0, 5900.0), false), Num(5900.0))]

  const FAN := FAN_RULES + FAN_STEPS

  const CPU: map<string, Row> := map[
    "no_turbo" := Row(Spec(Flag, true), Null),
    "epp" := Row(Spec(Choice(EPP_CHOICES), true), Null),
    "max_perf_pct" := Row(Spec(Whole(20.0, 100.0), true), Null)]

  const LOGGING: map<string, Row> := map[
    "retention_days" := Row(Spec(Whole(1.0, 365.0), false), Num(14.0)),
    "max_mib" := Row(Spec(Whole(16.0, 8192.0), false), Num(1024.0))]

  type Sections = map<string, map<string, Row>>

  const SECTIONS: Sections :=
    map["governor" := GOVERNOR, "gpu" := GPU, "fan" := FAN, "cpu" := CPU, "logging" := LOGGING]

  function Leaves(rows: map<string, Row>): map<string, Node> { map n | n in rows :: Leaf(rows[n].default) }

  /** The nested dictionary of the defaults. */
  function TreeOf(all: Sections): Node {
    Dict((map s | s in all :: Dict(Leaves(all[s])))["schema" := Leaf(Num(1.0))])
  }

  /** `k` names a key of a section. */
  predicate KnownKey(all: Sections, k: string) {
    |Split(k)| == 2 && Split(k)[0] in all && Split(k)[1] in all[Split(k)[0]]
  }

  function RowOf(all: Sections, k: string): Row
    requires KnownKey(all, k)
  {
    all[Split(k)[0]][Split(k)[1]]
  }

  function Keys(all: Sections): set<string> { set s, n | s in all && n in all[s] :: s + "." + n }

  /** The bounds, by dotted key. */
  function SpecOf(all: Sections): map<string, Spec> { map k | k in Keys(all) && KnownKey(all, k) :: RowOf(all, k).spec }

  // ----- For all sections with plain names whose defaults pass their own checks

  ghost predicate PlainNames(rows: map<string, Row>) { forall n | n in rows :: DotFree(n) }

  ghost predicate InBounds(rows: map<string, Row>) {
    forall n | n in rows :: CheckValue(rows[n].spec, rows[n].default) == Ok(rows[n].default)
  }

  ghost predicate Proper(all: Sections) {
    && "schema" !in all && (forall s | s in all :: DotFree(s) && PlainNames(all[s]) && InBounds(all[s]))
    && ("governor" in all ==> "hard_max_w" !in all["governor"])
  }

  lemma NamePlain(all: Sections, s: string, n: string)
    requires Proper(all) && s in all && n in all[s]
    ensures Plain([s, n]) && Join([s, n]) == s + "." + n
  {
    assert [s, n][1..] == [n];
  }

  lemma KnownByName(all: Sections, s: string, n: string)
    requires Proper(all) && s in all && n in all[s]
    ensures Split(s + "." + n) == [s, n] && KnownKey(all, s + "." + n) && s + "." + n in SpecOf(all)
  {
    NamePlain(all, s, n);
    SplitJoin([s, n]);
    assert s + "." + n in Keys(all);
  }

  lemma KnownIsSpec(all: Sections, k: string)
    requires Proper(all)
    ensures k in SpecOf(all) <==> KnownKey(all, k)
    ensures KnownKey(all, k) ==> SpecOf(all)[k] == RowOf(all, k).spec && k == Split(k)[0] + "." + Split(k)[1]
  {
    if KnownKey(all, k) {
      var s, n := Split(k)[0], Split(k)[1];
      SplitKey(k);
      NamePlain(all, s, n);
      assert Split(k) == [s, n];
      KnownByName(all, s, n);
    }
  }

  lemma AtSection(rows: map<string, Row>, q: Path)
    ensures At(Dict(Leaves(rows)), q) == if |q| == 1 && q[0] in rows then Some(rows[q[0]].default) else None
  {
    if q != [] && q[0] in rows {
      assert At(Dict(Leaves(rows)), q) == At(Leaf(rows[q[0]].default), q[1..]);
    }
  }

  /** The scalars of the tree. */
  lemma TreeAt(all: Sections, p: Path)
    requires "schema" !in all && p != []
    ensures At(TreeOf(all), p) ==
              if p == ["schema"] then Some(Num(1.0))
              else if |p| == 2 && p[0] in all && p[1] in all[p[0]] then Some(all[p[0]][p[1]].default)
              else None
  {
    assert p == [p[0]] + p[1..];
    if p[0] in all {
      AtSection(all[p[0]], p[1..]);
      assert |p| == 2 ==> p[1..][0] == p[1];
    }
  }

  lemma TreePlain(all: Sections)
    requires Proper(all)
    ensures PlainTree(TreeOf(all))
  {
    forall s | s in all
      ensures PlainTree(Dict(Leaves(all[s])))
    {
    }
    assert DotFree("schema");
  }

  /** The keys and values of the flat form. */
  lemma FlatKeys(all: Sections, base: Flat, k: string)
    requires Proper(all) && Flattens(TreeOf(all), "", base)
    ensures k in base <==> k == "schema" || KnownKey(all, k)
    ensures k == "schema" ==> base[k] == Num(1.0)
    ensures k != "schema" && KnownKey(all, k) ==> base[k] == RowOf(all, k).default
  {
    SplitKey(k);
    var p := Split(k);
    TreeAt(all, p);
    assert "" + Join(p) == k;
    SchemaPath();
    if At(TreeOf(all), p).Some? {
      assert Entry(base, "" + Join(p), At(TreeOf(all), p).value);
    }
    if k in base {
      PresentKey(TreeOf(all), base, k);
    }
    assert p == ["schema"] ==> k == Join(["schema"]);
  }

  lemma SchemaPath()
    ensures Split("schema") == ["schema"] && Join(["schema"]) == "schema"
  {
    assert DotFree("schema");
    SplitJoin(["schema"]);
  }

  lemma HardMaxPath()
    ensures Split("governor.hard_max_w") == ["governor", "hard_max_w"]
  {
    assert ["governor", "hard_max_w"][1..] == ["hard_max_w"];
    assert Join(["governor", "hard_max_w"]) == "governor.hard_max_w";
    assert DotFree("governor") && DotFree("hard_max_w");
    SplitJoin(["governor", "hard_max_w"]);
  }

  /** Such sections are what loading asks for, as far as rules are not concerned. */
  lemma KeyInBounds(all: Sections, base: Flat, k: string)
    requires Proper(all) && Flattens(TreeOf(all), "", base)
    ensures k in base <==> k == "schema" || k in SpecOf(all)
    ensures k in SpecOf(all) && k != "schema" ==> k in base && Admits(SpecOf(all)[k], base[k])
  {
    KnownIsSpec(all, k);
    FlatKeys(all, base, k);
    if KnownKey(all, k) {
      CheckedExactly(RowOf(all, k).spec, RowOf(all, k).default);
    }
  }

  lemma ProperFlat(all: Sections, base: Flat)
    requires Proper(all) && Flattens(TreeOf(all), "", base)
    ensures "schema" !in SpecOf(all) && "governor.hard_max_w" !in SpecOf(all)
    ensures base.Keys == SpecOf(all).Keys + {"schema"}
    ensures base["schema"] == Num(1.0) && Bounded(SpecOf(all), base)
  {
    SchemaPath();
    HardMaxPath();
    KnownIsSpec(all, "schema");
    KnownIsSpec(all, "governor.hard_max_w");
    forall k
      ensures k in base <==> k == "schema" || k in SpecOf(all)
      ensures k in SpecOf(all) ==> k in base && Admits(SpecOf(all)[k], base[k])
    {
      KeyInBounds(all, base, k);
    }
    FlatKeys(all, base, "schema");
  }

  // ----- The shipped sections

  lemma GovernorLimitNames()
    ensures PlainNames(GOVERNOR_LIMITS) && "hard_max_w" !in GOVERNOR_LIMITS
  {
  }

  lemma GovernorLimitBounds()
    ensures InBounds(GOVERNOR_LIMITS)
  {
  }

  lemma GovernorStepNames()
    ensures PlainNames(GOVERNOR_STEPS) && "hard_max_w" !in GOVERNOR_STEPS
  {
  }

  lemma GovernorStepBounds()
    ensures InBounds(GOVERNOR_STEPS)
  {
  }

  lemma GovernorProper()
    ensures PlainNames(GOVERNOR) && InBounds(GOVERNOR) && "hard_max_w" !in GOVERNOR
  {
    GovernorLimitNames();
    GovernorLimitBounds();
    GovernorStepNames();
    GovernorStepBounds();
    UnionProper(GOVERNOR_STEPS, GOVERNOR_LIMITS);
  }

  lemma GpuNames()
    ensures PlainNames(GPU)
  {
  }

  lemma GpuBounds()
    ensures InBounds(GPU)
  {
  }

  lemma FanStepNames()
    ensures PlainNames(FAN_STEPS)
  {
  }

  lemma FanStepBounds()
    ensures InBounds(FAN_STEPS)
  {
  }

  lemma FanRuleNames()
    ensures PlainNames(FAN_RULES)
  {
  }

  lemma FanRuleBounds()
    ensures InBounds(FAN_RULES)
  {
  }

  lemma UnionProper(a: map<string, Row>, b: map<string, Row>)
    requires PlainNames(a) && InBounds(a) && PlainNames(b) && InBounds(b)
    ensures PlainNames(a + b) && InBounds(a + b)
  {
  }

  lemma FanProper()
    ensures PlainNames(FAN) && InBounds(FAN)
  {
    FanStepNames();
    FanStepBounds();
    FanRuleNames();
    FanRuleBounds();
    UnionProper(FAN_RULES, FAN_STEPS);
  }

  lemma CpuNames()
    ensures PlainNames(CPU)
  {
  }

  lemma CpuBounds()
    ensures InBounds(CPU)
  {
  }

  lemma LoggingNames()
    ensures PlainNames(LOGGING)
  {
  }

  lemma LoggingBounds()
    ensures InBounds(LOGGING)
  {
  }

  lemma ProperSections(
    governor: map<string, Row>, gpu: map<string, Row>, fan: map<string, Row>, cpu: map<string, Row>,
    logging: map<string, Row>)
    requires PlainNames(governor) && PlainNames(gpu) && PlainNames(fan) && PlainNames(cpu) && PlainNames(logging)
    requires InBounds(governor) && InBounds(gpu) && InBounds(fan) && InBounds(cpu) && InBounds(logging)
    requires "hard_max_w" !in governor
    ensures Proper(map["governor" := governor, "gpu" := gpu, "fan" := fan, "cpu" := cpu, "logging" := logging])
  {
  }

  lemma SectionsProper()
    ensures Proper(SECTIONS)
  {
    GovernorProper();
    GpuNames();
    GpuBounds();
    FanProper();
    CpuNames();
    CpuBounds();
    LoggingNames();
    LoggingBounds();
    ProperSections(GOVERNOR, GPU, FAN, CPU, LOGGING);
  }

  // ----- The rules

  lemma RuleHolds(all: Sections, base: Flat, r: Rule, s: string, n: string, m: string)
    requires Proper(all) && Flattens(TreeOf(all), "", base) && s in all && n in all[s] && m in all[s]
    requires r.a == s + "." + n && r.b == s + "." + m
    ensures r.a in base && r.b in base
    ensures r.Holds(base) <==> r.HoldsOf(all[s][n].default, all[s][m].default)
  {
    KnownByName(all, s, n);
    KnownByName(all, s, m);
    FlatKeys(all, base, r.a);
    FlatKeys(all, base, r.b);
    SchemaPath();
  }

  /** A cross rule holds of the defaults of its section. */
  ghost predicate CrossOk(c: CrossRule, rows: map<string, Row>) {
    c.x in rows && c.y in rows && c.AsRule().HoldsOf(rows[c.x].default, rows[c.y].default)
  }

  lemma LimitCross()
    ensures forall i | 0 <= i < 3 :: CROSS[i].section == "governor" && CrossOk(CROSS[i], GOVERNOR_LIMITS)
  {
  }

  lemma ThermalCross()
    ensures CROSS[3].section == "governor" && CrossOk(CROSS[3], GOVERNOR_STEPS)
    ensures CROSS[3].x !in GOVERNOR_LIMITS && CROSS[3].y !in GOVERNOR_LIMITS
  {
  }

  lemma GovernorCross()
    ensures forall i | 0 <= i < 4 :: CROSS[i].section == "governor" && CrossOk(CROSS[i], GOVERNOR)
  {
    LimitCross();
    ThermalCross();
  }

  lemma FanCross()
    ensures forall i | 4 <= i < |CROSS| :: CROSS[i].section == "fan" && CrossOk(CROSS[i], FAN_STEPS)
  {
  }

  lemma SectionsNamed(
    governor: map<string, Row>, gpu: map<string, Row>, fan: map<string, Row>, cpu: map<string, Row>,
    logging: map<string, Row>)
    ensures var all := map["governor" := governor, "gpu" := gpu, "fan" := fan, "cpu" := cpu, "logging" := logging];
      "governor" in all && all["governor"] == governor && "fan" in all && all["fan"] == fan
  {
  }

  lemma SectionsAre()
    ensures "governor" in SECTIONS && SECTIONS["governor"] == GOVERNOR && "fan" in SECTIONS && SECTIONS["fan"] == FAN
  {
    SectionsNamed(GOVERNOR, GPU, FAN, CPU, LOGGING);
  }

  /** The rules are these cross rules, and all of them hold of the defaults. */
  ghost predicate CrossFit(all: Sections, cross: seq<CrossRule>, rules: seq<Rule>) {
    && |rules| == |cross|
    && forall i | 0 <= i < |cross| ::
         rules[i] == cross[i].AsRule() && cross[i].section in all && CrossOk(cross[i], all[cross[i].section])
  }

  lemma SoundSections(all: Sections, cross: seq<CrossRule>, rules: seq<Rule>, base: Flat)
    requires Proper(all) && CrossFit(all, cross, rules) && Flattens(TreeOf(all), "", base)
    ensures Sound(rules, SpecOf(all), TreeOf(all), base)
  {
    TreePlain(all);
    ProperFlat(all, base);
    forall i | 0 <= i < |rules|
      ensures rules[i].a in base && rules[i].b in base && rules[i].Holds(base)
    {
      RuleHolds(all, base, rules[i], cross[i].section, cross[i].x, cross[i].y);
    }
  }

  lemma CrossHolds()
    ensures CrossFit(SECTIONS, CROSS, CROSS_RULES)
  {
    SectionsAre();
    GovernorCross();
    FanCross();
  }

  /** The shipped defaults: the nested dictionary flattens to a configuration that has every known key and the schema,
      each within its bounds, and that satisfies every cross rule. */
  lemma DefaultsSound(base: Flat)
    requires Flattens(TreeOf(SECTIONS), "", base)
    ensures Sound(CROSS_RULES, SpecOf(SECTIONS), TreeOf(SECTIONS), base)
  {
    SectionsProper();
    CrossHolds();
    SoundSections(SECTIONS, CROSS, CROSS_RULES, base);
  }

  /** The flat form of the defaults. */
  method FlatDefaults() returns (base: Flat)
    ensures Flattens(TreeOf(SECTIONS), "", base) && Sound(CROSS_RULES, SpecOf(SECTIONS), TreeOf(SECTIONS), base)
  {
    SectionsProper();
    TreePlain(SECTIONS);
    base := Flatten(TreeOf(SECTIONS), "");
    DefaultsSound(base);
  }

  /** `from_dict` with the shipped defaults: whatever the file holds, the configuration is a good one, made of the
      defaults and what `validate` accepts of the file. */
  method LoadConfig(raw: Node)
    returns (cfg: Node, rejected: map<string, string>, ghost base: Flat, ghost given: Flat, ghost flat: Flat)
    ensures Flattens(TreeOf(SECTIONS), "", base) && Flattens(cfg, "", flat) && PlainTree(cfg)
    ensures "schema" in base && Good(CROSS_RULES, SpecOf(SECTIONS), base, flat) && Clean(CROSS_RULES, base)
    ensures !raw.Dict? ==> flat == base && rejected.Keys == {"<file>"}
    ensures raw.Dict? ==> FlatOf(raw, "", given) && (PlainTree(raw) ==> Flattens(raw, "", given))
    ensures raw.Dict? ==> flat == base + Survivors(CROSS_RULES, base, PassingUpdates(SpecOf(SECTIONS), given))
    ensures raw.Dict? ==> forall k :: k in rejected <==> Rejects(CROSS_RULES, SpecOf(SECTIONS), base, given, k)
    ensures raw.Dict? && Clean(CROSS_RULES, base + PassingUpdates(SpecOf(SECTIONS), given)) ==>
              flat == base + PassingUpdates(SpecOf(SECTIONS), given)
  {
    var defaults := FlatDefaults();
    base := defaults;
    cfg, rejected, given, flat := FromDict(CROSS_RULES, SpecOf(SECTIONS), raw, TreeOf(SECTIONS), base);
  }

  // ----- An update that reports a key it does not touch

  function FanKey(n: string): string { "fan" + "." + n }

  /** Thresholds that are out of order with each other and with the third. */
  function HotSteps(): Flat { map[FanKey("t1_c") := Num(95.0), FanKey("t2_c") := Num(93.0)] }

  lemma FanStepRows()
    ensures forall n | n in {"t1_c", "t2_c", "t3_c"} :: n in FAN && FAN[n].spec == Spec(Number(50.0, 99.0), false)
    ensures FAN["t3_c"].default == Num(90.0)
  {
  }

  lemma FanKeysDiffer()
    ensures FanKey("t3_c") != FanKey("t1_c") && FanKey("t3_c") != FanKey("t2_c") && FanKey("t1_c") != FanKey("t2_c")
  {
    assert FanKey("t1_c")[5] == '1' && FanKey("t2_c")[5] == '2' && FanKey("t3_c")[5] == '3';
  }

  lemma FanSpec(n: string)
    requires n in {"t1_c", "t2_c", "t3_c"}
    ensures FanKey(n) in SpecOf(SECTIONS) && SpecOf(SECTIONS)[FanKey(n)] == Spec(Number(50.0, 99.0), false)
    ensures FanKey(n) != "schema" && FanKey(n) != "governor.hard_max_w" && KnownKey(SECTIONS, FanKey(n))
  {
    SectionsProper();
    SectionsAre();
    FanStepRows();
    KnownByName(SECTIONS, "fan", n);
    KnownIsSpec(SECTIONS, FanKey(n));
    assert FanKey(n)[0] == 'f';
  }

  lemma HotStepsPass()
    ensures PassingUpdates(SpecOf(SECTIONS), HotSteps()) == HotSteps()
  {
    FanSpec("t1_c");
    FanSpec("t2_c");
    FanKeysDiffer();
    BothPass(SpecOf(SECTIONS), FanKey("t1_c"), Num(95.0), FanKey("t2_c"), Num(93.0));
  }

  lemma BothPass(specs: map<string, Spec>, j: string, v: Value, k: string, w: Value)
    requires j != k && j != "schema" && k != "schema"
    requires CheckOne(specs, j, v) == Ok(v) && CheckOne(specs, k, w) == Ok(w)
    ensures PassingUpdates(specs, map[j := v, k := w]) == map[j := v, k := w]
  {
  }

  lemma ThirdStep(base: Flat)
    requires Flattens(TreeOf(SECTIONS), "", base)
    ensures FanKey("t3_c") in base && base[FanKey("t3_c")] == Num(90.0)
  {
    SectionsProper();
    SectionsAre();
    FanStepRows();
    FanSpec("t3_c");
    FlatKeys(SECTIONS, base, FanKey("t3_c"));
    KnownByName(SECTIONS, "fan", "t3_c");
  }

  lemma StepRules()
    ensures CROSS_RULES[4].a == FanKey("t1_c") && CROSS_RULES[4].b == FanKey("t2_c") == CROSS_RULES[5].a
    ensures CROSS_RULES[5].b == FanKey("t3_c") && CROSS_RULES[4].relation == CROSS_RULES[5].relation == Below
  {
  }

  /** The rule on the first two steps takes both updates out; the rule on the last two then reports the third. */
  lemma ThirdStepOrphaned(base: Flat)
    requires Readable(CROSS_RULES, base) && FanKey("t3_c") in base && base[FanKey("t3_c")] == Num(90.0)
    ensures Orphaned(CROSS_RULES, base, HotSteps(), 5, FanKey("t3_c"))
  {
    StepRules();
    FanKeysDiffer();
    assert Broken(CROSS_RULES, base, HotSteps(), 4) && CROSS_RULES[4].Touches(FanKey("t2_c"));
    assert Taken(CROSS_RULES, base, HotSteps(), 5, FanKey("t2_c"));
  }

  lemma HotStepsOrphan(specs: map<string, Spec>, base: Flat)
    requires specs == SpecOf(SECTIONS) && Flattens(TreeOf(SECTIONS), "", base) && Readable(CROSS_RULES, base)
    ensures PassingUpdates(specs, HotSteps()) == HotSteps() && FanKey("t3_c") !in HotSteps()
    ensures Orphaned(CROSS_RULES, base, HotSteps(), 5, FanKey("t3_c"))
  {
    HotStepsPass();
    FanKeysDiffer();
    ThirdStep(base);
    ThirdStepOrphaned(base);
  }

  /** Whatever the first pass orphans is rejected. */
  method RejectsOrphan(
    rules: seq<Rule>, specs: map<string, Spec>, updates: Flat, base: Flat, ghost j: int, ghost k: string)
    returns (accepted: Flat, rejected: map<string, string>)
    requires Readable(rules, base) && PassingUpdates(specs, updates) == updates && k !in updates
    requires Orphaned(rules, base, updates, j, k)
    ensures k in rejected
  {
    ghost var starts;
    accepted, rejected, starts := Validate(rules, specs, updates, base);
    assert OrphanedIn(rules, base, starts, 0, j, k);
  }

  /** On the shipped defaults, updating the first two thresholds can get the third rejected. */
  method RejectsWhatWasNotUpdated() returns (accepted: Flat, rejected: map<string, string>)
    ensures FanKey("t3_c") in rejected && FanKey("t3_c") !in HotSteps()
  {
    var base := FlatDefaults();
    HotStepsOrphan(SpecOf(SECTIONS), base);
    accepted, rejected := RejectsOrphan(CROSS_RULES, SpecOf(SECTIONS), HotSteps(), base, 5, FanKey("t3_c"));
  }
}
