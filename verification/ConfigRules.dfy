/** Configuration updates: the check of one value, the cross rules, and the fix-point that rejects updates until the
    merged configuration satisfies every rule. */
module ConfigRules {
  /** A JSON scalar. `NaN` is a float that is not a number; infinities are not modelled. */
  datatype Value = Null | Bool(b: bool) | Num(n: real) | NaN | Text(s: string)

  datatype Kind = Choice(options: seq<string>) | Number(lo: real, hi: real) | Whole(low: real, high: real) | Flag

  datatype Spec = Spec(kind: Kind, optional: bool)

  datatype Checked = Ok(value: Value) | Bad(reason: string)

  const EPS := 0.000000001

  type Flat = map<string, Value>

  /** Normalize one value, or say why not. */
  function CheckOne(specs: map<string, Spec>, key: string, v: Value): Checked {
    if key == "schema" then if v == Num(1.0) || v == Bool(true) then Ok(v) else Bad("schema must be 1")
    else if key == "governor.hard_max_w" then Bad("hard_max_w is fixed at 45 W")
    else if key !in specs then Bad("unknown key")
    else CheckValue(specs[key], v)
  }

  function CheckValue(spec: Spec, v: Value): Checked {
    if spec.optional && v == Null then Ok(Null)
    else match spec.kind
      case Choice(options) => if v.Text? && v.s in options then Ok(v) else Bad("must be one of the choices")
      case Flag => if v.Bool? then Ok(v) else Bad("must be true or false")
      case Number(lo, hi) =>
        if !v.Num? then Bad("must be a number")
        else if lo - EPS <= v.n <= hi + EPS then Ok(v)
        else Bad("out of range")
      case Whole(lo, hi) =>
        if !v.Num? then Bad("must be a number")
        else if v.n.Floor as real != v.n then Bad("must be an integer")
        else if lo - EPS <= v.n <= hi + EPS then Ok(v)
        else Bad("out of range")
  }

  /** The values a key may have: of its type, among its choices, within its range but for a billionth, and null only
      where it is optional. */
  ghost predicate Admits(spec: Spec, v: Value) {
    match v
    case Null => spec.optional
    case Bool(_) => spec.kind.Flag?
    case NaN => false
    case Text(t) => spec.kind.Choice? && exists i :: 0 <= i < |spec.kind.options| && spec.kind.options[i] == t
    case Num(n) =>
      match spec.kind
      case Number(lo, hi) => -0.000000001 <= n - lo && n - hi <= 0.000000001
      case Whole(lo, hi) =>
        -0.000000001 <= n - lo && n - hi <= 0.000000001 && Integral(n)
      case _ => false
  }

  ghost predicate Integral(n: real) { exists k: int :: AsReal(k) == n }

  function AsReal(k: int): real { k as real }

  /** The check of one value accepts exactly those, and changes none. */
  lemma CheckedExactly(spec: Spec, v: Value)
    ensures CheckValue(spec, v).Ok? <==> Admits(spec, v)
    ensures CheckValue(spec, v).Ok? ==> CheckValue(spec, v).value == v
  {
    if v.Num? && spec.kind.Whole? && CheckValue(spec, v).Ok? {
      assert AsReal(v.n.Floor) == v.n;
    }
  }

  /** Whatever the key, only `schema` with 1 and the known keys with a value of theirs are accepted, and the hard limit
      never is. */
  lemma KeysChecked(specs: map<string, Spec>, key: string, v: Value)
    ensures CheckOne(specs, key, v).Ok? <==>
              if key == "schema" then v in {Num(1.0), Bool(true)}
              else key != "governor.hard_max_w" && key in specs && Admits(specs[key], v)
    ensures CheckOne(specs, key, v).Ok? ==> CheckOne(specs, key, v).value == v
  {
    if key in specs {
      CheckedExactly(specs[key], v);
    }
  }

  // ----- Cross rules

  datatype Relation =
    | AtMost(slack: real)      // a <= b + slack
    | Below                    // a < b
    | AtMostOrUnset(gap: real) // b unset, or a <= b + gap

  datatype Rule = Rule(a: string, b: string, relation: Relation, reason: string) {
    predicate Touches(k: string) { k == a || k == b }

    predicate Holds(m: Flat)
      requires a in m && b in m
    {
      HoldsOf(m[a], m[b])
    }

    predicate HoldsOf(x: Value, y: Value) {
      match relation
      case AtMost(slack) => Number(x) <= Number(y) + slack
      case Below => Number(x) < Number(y) - EPS
      case AtMostOrUnset(gap) => y == Null || Number(x) <= Number(y) + gap
    }

    static function Number(v: Value): real { if v.Num? then v.n else 0.0 }
  }

  /** What a rule asks of two numbers: a distance at most, or a billionth apart at least; and of an unset second value,
      where it may be unset, nothing. */
  lemma HoldsExactly(r: Rule, x: real, y: real)
    ensures r.HoldsOf(Num(x), Num(y)) <==>
              match r.relation
              case AtMost(slack) => x - y <= slack
              case Below => y - x > 0.000000001
              case AtMostOrUnset(gap) => x - y <= gap
    ensures r.relation.AtMostOrUnset? ==> r.HoldsOf(Num(x), Null)
  {
  }

  /** A rule on two keys of one section. */
  datatype CrossRule = CrossRule(section: string, x: string, y: string, relation: Relation, reason: string) {
    function AsRule(): Rule { Rule(section + "." + x, section + "." + y, relation, reason) }
  }

  const CROSS: seq<CrossRule> := [
    CrossRule("governor", "static_cap_w", "ceiling_w", AtMost(EPS), "static_cap_w must be <= ceiling_w"),
    CrossRule("governor", "recover_ratio", "shed_ratio", AtMost(-0.05 + EPS),
              "recover_ratio must be <= shed_ratio - 0.05"),
    CrossRule("governor", "shed_ratio", "emergency_ratio", AtMost(-0.03 + EPS),
              "emergency_ratio must be >= shed_ratio + 0.03"),
    CrossRule("governor", "thermal_recover_c", "thermal_trim_c", AtMostOrUnset(-2.0 + EPS),
              "thermal_recover_c must be <= thermal_trim_c - 2"),
    CrossRule("fan", "t1_c", "t2_c", Below, "t1_c must be < t2_c"),
    CrossRule("fan", "t2_c", "t3_c", Below, "t2_c must be < t3_c"),
    CrossRule("fan", "t1_rpm", "t2_rpm", AtMost(0.0), "t1_rpm must be <= t2_rpm"),
    CrossRule("fan", "t2_rpm", "t3_rpm", AtMost(0.0), "t2_rpm must be <= t3_rpm")]

  function AsRules(cross: seq<CrossRule>): seq<Rule> {
    seq(|cross|, i requires 0 <= i < |cross| => cross[i].AsRule())
  }

  const CROSS_RULES: seq<Rule> := AsRules(CROSS)

  /** Every key a rule reads is there. */
  ghost predicate Readable(rules: seq<Rule>, m: Flat) {
    forall i | 0 <= i < |rules| :: rules[i].a in m && rules[i].b in m
  }

  /** Every rule holds. */
  ghost predicate Clean(rules: seq<Rule>, m: Flat) {
    Readable(rules, m) && forall i | 0 <= i < |rules| :: rules[i].Holds(m)
  }

  // ----- The fix-point

  /** The updates that pass their own check, normalized. */
  ghost function PassingUpdates(specs: map<string, Spec>, updates: Flat): Flat {
    map k | k in updates && k != "schema" && CheckOne(specs, k, updates[k]).Ok? :: CheckOne(specs, k, updates[k]).value
  }

  /** The first stage: what each updated key is worth on its own. */
  method CheckEach(specs: map<string, Spec>, updates: Flat) returns (accepted: Flat, rejected: map<string, string>)
    ensures accepted == PassingUpdates(specs, updates) && accepted.Keys !! rejected.Keys
    ensures forall k :: k in rejected <==> k in updates && CheckOne(specs, k, updates[k]).Bad?
  {
    accepted, rejected := map[], map[];
    var todo := updates.Keys;
    while todo != {}
      invariant todo <= updates.Keys
      invariant forall k ::
                k in accepted <==> k in updates && k !in todo && k != "schema" && CheckOne(specs, k, updates[k]).Ok?
      invariant forall k | k in accepted :: CheckOne(specs, k, updates[k]) == Ok(accepted[k])
      invariant forall k :: k in rejected <==> k in updates && k !in todo && CheckOne(specs, k, updates[k]).Bad?
      decreases todo
    {
      var k :| k in todo;
      match CheckOne(specs, k, updates[k]) {
        case Bad(reason) =>
          rejected := rejected[k := reason];
        case Ok(v) =>
          if k != "schema" {
            accepted := accepted[k := v];
          }
      }
      todo := todo - {k};
    }
  }

  ghost predicate Part(m: Flat, all: Flat) {
    m.Keys <= all.Keys && forall k | k in m :: m[k] == all[k]
  }

  // ----- What one pass does. All its rules are judged on the base merged with the updates at its start.

  ghost predicate Broken(rules: seq<Rule>, base: Flat, start: Flat, i: int)
    requires Readable(rules, base)
  {
    0 <= i < |rules| && !rules[i].Holds(base + start)
  }

  /** A broken rule before rule `j` has taken `k` out. */
  ghost predicate Taken(rules: seq<Rule>, base: Flat, start: Flat, j: int, k: string)
    requires Readable(rules, base)
  {
    exists i :: 0 <= i < j && Broken(rules, base, start, i) && rules[i].Touches(k)
  }

  /** The updates that are left when the pass comes to rule `j`. */
  ghost function Left(rules: seq<Rule>, base: Flat, start: Flat, j: int): Flat
    requires Readable(rules, base)
  {
    map k | k in start && !Taken(rules, base, start, j, k) :: start[k]
  }

  /** Rule `j` breaks and reports `k`: one of its keys that is left, or either key if none is. */
  ghost predicate ReportedBy(rules: seq<Rule>, base: Flat, start: Flat, j: int, k: string)
    requires Readable(rules, base)
  {
    && Broken(rules, base, start, j) && rules[j].Touches(k)
    && var left := Left(rules, base, start, j);
       k in left || (rules[j].a !in left && rules[j].b !in left)
  }

  ghost predicate Reported(rules: seq<Rule>, base: Flat, start: Flat, k: string)
    requires Readable(rules, base)
  {
    exists j :: ReportedBy(rules, base, start, j, k)
  }

  /** Rule `j` breaks and reads `k`, and every key of it that was updated has been taken by a rule before it. */
  ghost predicate Orphaned(rules: seq<Rule>, base: Flat, start: Flat, j: int, k: string)
    requires Readable(rules, base)
  {
    && Broken(rules, base, start, j) && rules[j].Touches(k)
    && (rules[j].a in start ==> Taken(rules, base, start, j, rules[j].a))
    && (rules[j].b in start ==> Taken(rules, base, start, j, rules[j].b))
  }

  /** `starts` holds the updates at the start of each pass that was made, and last what they left. */
  ghost predicate Passes(rules: seq<Rule>, base: Flat, first: Flat, starts: seq<Flat>)
    requires Readable(rules, base)
  {
    |starts| > 0 && starts[0] == first && forall m | 0 <= m < |starts| - 1 :: Follows(rules, base, starts, m)
  }

  ghost predicate Follows(rules: seq<Rule>, base: Flat, starts: seq<Flat>, m: nat)
    requires Readable(rules, base) && m < |starts| - 1
  {
    starts[m + 1] == Left(rules, base, starts[m], |rules|)
  }

  ghost predicate Dirty(rules: seq<Rule>, base: Flat, starts: seq<Flat>, m: nat)
    requires m < |starts|
  {
    !Clean(rules, base + starts[m])
  }

  /** These are the passes made: up to the first clean one, or one more than there are rules. */
  ghost predicate Made(rules: seq<Rule>, base: Flat, first: Flat, starts: seq<Flat>)
    requires Readable(rules, base)
  {
    && Passes(rules, base, first, starts) && 2 <= |starts| <= |rules| + 2
    && (forall m: nat | m < |starts| - 2 :: Dirty(rules, base, starts, m))
    && (|starts| == |rules| + 2 || Clean(rules, base + starts[|starts| - 1]))
  }

  /** The pass from `starts[m]` reports `k`. */
  ghost predicate ReportedIn(rules: seq<Rule>, base: Flat, starts: seq<Flat>, m: nat, k: string)
    requires Readable(rules, base) && m < |starts|
  {
    Reported(rules, base, starts[m], k)
  }

  /** One of the first `n` passes reports `k`. */
  ghost predicate EverReported(rules: seq<Rule>, base: Flat, starts: seq<Flat>, n: nat, k: string)
    requires Readable(rules, base) && n <= |starts|
  {
    exists m: nat :: m < n && ReportedIn(rules, base, starts, m, k)
  }

  /** The pass from `starts[m]` comes to rule `j`, which breaks and reads `k`, when all its updated keys are gone. */
  ghost predicate OrphanedIn(rules: seq<Rule>, base: Flat, starts: seq<Flat>, m: nat, j: int, k: string)
    requires Readable(rules, base) && m < |starts|
  {
    Orphaned(rules, base, starts[m], j, k)
  }

  /** What is left of the updates after at most `passes` passes, up to the first clean one. */
  ghost function Remaining(rules: seq<Rule>, base: Flat, start: Flat, passes: nat): Flat
    requires Readable(rules, base)
  {
    if passes == 0 || Clean(rules, base + start) then start
    else Remaining(rules, base, Left(rules, base, start, |rules|), passes - 1)
  }

  /** One of these passes reports `k`. */
  ghost predicate Complained(rules: seq<Rule>, base: Flat, start: Flat, passes: nat, k: string)
    requires Readable(rules, base)
  {
    && passes > 0 && !Clean(rules, base + start)
    && (Reported(rules, base, start, k)
        || Complained(rules, base, Left(rules, base, start, |rules|), passes - 1, k))
  }

  /** What the passes of `validate` leave of the updates that passed their own check. */
  ghost function Survivors(rules: seq<Rule>, base: Flat, first: Flat): Flat
    requires Readable(rules, base)
  {
    Remaining(rules, base, first, |rules| + 1)
  }

  /** Some pass of `validate` reports `k`. */
  ghost predicate Blamed(rules: seq<Rule>, base: Flat, first: Flat, k: string)
    requires Readable(rules, base)
  {
    Complained(rules, base, first, |rules| + 1, k)
  }

  // ----- The code

  method RejectOne(k: string, reason: string, accepted: Flat, rejected: map<string, string>)
    returns (accepted': Flat, rejected': map<string, string>)
    ensures accepted' == accepted - {k}
    ensures rejected' == if k in rejected then rejected else rejected[k := reason]
  {
    accepted' := accepted - {k};
    rejected' := if k in rejected then rejected else rejected[k := reason];
  }

  /** A broken rule takes its updated keys out; if it has none left, both its keys are reported. */
  method Break(r: Rule, accepted: Flat, rejected: map<string, string>)
    returns (accepted': Flat, rejected': map<string, string>)
    ensures accepted' == accepted - {r.a, r.b}
    ensures forall k | k in rejected :: k in rejected' && rejected'[k] == rejected[k]
    ensures forall k :: k in rejected' <==>
              k in rejected || (r.Touches(k) && (k in accepted || (r.a !in accepted && r.b !in accepted)))
    ensures forall k | k in rejected' && k !in rejected :: rejected'[k] == r.reason
  {
    var none := r.a !in accepted && r.b !in accepted;
    accepted', rejected' := accepted, rejected;
    if none || r.a in accepted {
      accepted', rejected' := RejectOne(r.a, r.reason, accepted', rejected');
    }
    if none || r.b in accepted {
      accepted', rejected' := RejectOne(r.b, r.reason, accepted', rejected');
    }
  }

  lemma LeftStep(rules: seq<Rule>, base: Flat, start: Flat, j: nat)
    requires Readable(rules, base) && j < |rules|
    ensures Left(rules, base, start, j + 1)
            == Left(rules, base, start, j) - if Broken(rules, base, start, j) then {rules[j].a, rules[j].b} else {}
  {
    forall k
      ensures Taken(rules, base, start, j + 1, k) <==>
                Taken(rules, base, start, j, k) || (Broken(rules, base, start, j) && rules[j].Touches(k))
    {
      if Broken(rules, base, start, j) && rules[j].Touches(k) {
        assert Taken(rules, base, start, j + 1, k);
      }
    }
  }

  /** One pass over the rules: what is left, and exactly the keys it reports. */
  method Pass(rules: seq<Rule>, base: Flat, accepted: Flat, rejected: map<string, string>)
    returns (accepted': Flat, rejected': map<string, string>, dirty: bool)
    requires Readable(rules, base)
    ensures accepted' == Left(rules, base, accepted, |rules|)
    ensures dirty <==> !Clean(rules, base + accepted)
    ensures forall k :: k in rejected' <==> k in rejected || Reported(rules, base, accepted, k)
    ensures forall k | k in rejected :: rejected'[k] == rejected[k]
  {
    var merged := base + accepted;
    accepted', rejected', dirty := accepted, rejected, false;
    assert forall k :: !Taken(rules, base, accepted, 0, k);
    for j := 0 to |rules|
      invariant accepted' == Left(rules, base, accepted, j)
      invariant dirty <==> exists i :: 0 <= i < j && Broken(rules, base, accepted, i)
      invariant forall k :: k in rejected' <==>
                  k in rejected || exists i :: 0 <= i < j && ReportedBy(rules, base, accepted, i, k)
      invariant forall k | k in rejected :: rejected'[k] == rejected[k]
    {
      LeftStep(rules, base, accepted, j);
      if !rules[j].Holds(merged) {
        ghost var before := rejected';
        accepted', rejected' := Break(rules[j], accepted', rejected');
        dirty := true;
        assert Broken(rules, base, accepted, j);
        assert forall k :: k in rejected' <==> k in before || ReportedBy(rules, base, accepted, j, k);
      }
    }
    CleanIsUnbroken(rules, base, accepted);
  }

  lemma CleanIsUnbroken(rules: seq<Rule>, base: Flat, start: Flat)
    requires Readable(rules, base)
    ensures Clean(rules, base + start) <==> !exists i :: Broken(rules, base, start, i)
  {
    if !exists i :: Broken(rules, base, start, i) {
      forall i | 0 <= i < |rules|
        ensures rules[i].Holds(base + start)
      {
        assert !Broken(rules, base, start, i);
      }
    }
  }

  // ----- All passes

  /** The first broken rule that reads an updated key reports it. */
  lemma {:induction false} TakenIsReported(rules: seq<Rule>, base: Flat, start: Flat, j: nat, k: string)
    requires Readable(rules, base) && k in start && Taken(rules, base, start, j, k)
    ensures Reported(rules, base, start, k)
  {
    var i :| 0 <= i < j && Broken(rules, base, start, i) && rules[i].Touches(k);
    if Taken(rules, base, start, i, k) {
      TakenIsReported(rules, base, start, i, k);
    } else {
      assert ReportedBy(rules, base, start, i, k);
    }
  }

  /** A reported key is not left at the end of the pass. */
  lemma ReportedIsTaken(rules: seq<Rule>, base: Flat, start: Flat, k: string)
    requires Readable(rules, base) && Reported(rules, base, start, k)
    ensures k !in Left(rules, base, start, |rules|)
  {
    var j :| ReportedBy(rules, base, start, j, k);
    assert 0 <= j < |rules| && Broken(rules, base, start, j) && rules[j].Touches(k);
    assert Taken(rules, base, start, |rules|, k);
  }

  /** An update is taken out exactly when it is reported. */
  lemma OutOfPass(rules: seq<Rule>, base: Flat, start: Flat, k: string)
    requires Readable(rules, base)
    ensures k in Left(rules, base, start, |rules|) <==> k in start && !Reported(rules, base, start, k)
  {
    if Reported(rules, base, start, k) {
      ReportedIsTaken(rules, base, start, k);
    } else if k in start && Taken(rules, base, start, |rules|, k) {
      TakenIsReported(rules, base, start, |rules|, k);
    }
  }

  lemma OutStep(rules: seq<Rule>, base: Flat, starts: seq<Flat>, m: nat, k: string)
    requires Readable(rules, base) && m < |starts| - 1 && Follows(rules, base, starts, m)
    ensures k in starts[m + 1] <==> k in starts[m] && !ReportedIn(rules, base, starts, m, k)
    ensures k in starts[m + 1] ==> starts[m + 1][k] == starts[m][k]
  {
    OutOfPass(rules, base, starts[m], k);
  }

  lemma {:induction false} OutIsReported(
    rules: seq<Rule>, base: Flat, first: Flat, starts: seq<Flat>, n: nat, k: string)
    requires Readable(rules, base) && Passes(rules, base, first, starts) && n < |starts|
    ensures k in starts[n] <==> k in first && !EverReported(rules, base, starts, n, k)
    ensures k in starts[n] ==> starts[n][k] == first[k]
  {
    if n > 0 {
      OutIsReported(rules, base, first, starts, n - 1, k);
      assert Follows(rules, base, starts, n - 1);
      OutStep(rules, base, starts, n - 1, k);
      assert EverReported(rules, base, starts, n, k) <==>
               EverReported(rules, base, starts, n - 1, k) || ReportedIn(rules, base, starts, n - 1, k);
    }
  }

  /** A key that was not updated is reported exactly where a rule is left without updated keys. */
  lemma OutsideIsOrphaned(rules: seq<Rule>, base: Flat, starts: seq<Flat>, m: nat, k: string)
    requires Readable(rules, base) && m < |starts| && k !in starts[m]
    ensures ReportedIn(rules, base, starts, m, k) <==> exists j :: OrphanedIn(rules, base, starts, m, j, k)
  {
    forall j
      ensures ReportedBy(rules, base, starts[m], j, k) <==> OrphanedIn(rules, base, starts, m, j, k)
    {
    }
  }

  // ----- On a base that satisfies every rule, the passes come to an end

  /** No key of the rules in `settled` is updated any more. */
  ghost predicate Gone(rules: seq<Rule>, start: Flat, settled: set<int>) {
    forall i | i in settled :: 0 <= i < |rules| && rules[i].a !in start && rules[i].b !in start
  }

  /** A rule none of whose keys is updated reads the base, so it does not break. */
  lemma SettledHolds(rules: seq<Rule>, base: Flat, start: Flat, settled: set<int>)
    requires Clean(rules, base) && Gone(rules, start, settled)
    ensures forall i | i in settled :: !Broken(rules, base, start, i)
  {
    forall i | i in settled
      ensures !Broken(rules, base, start, i)
    {
      assert (base + start)[rules[i].a] == base[rules[i].a] && (base + start)[rules[i].b] == base[rules[i].b];
    }
  }

  /** A rule that breaks in a pass is gone after it. */
  lemma BrokenIsGone(rules: seq<Rule>, base: Flat, start: Flat, settled: set<int>, i: int)
    requires Readable(rules, base) && Gone(rules, start, settled) && Broken(rules, base, start, i)
    ensures Gone(rules, Left(rules, base, start, |rules|), settled + {i})
  {
    assert Taken(rules, base, start, |rules|, rules[i].a) && Taken(rules, base, start, |rules|, rules[i].b);
  }

  lemma {:induction false} BoundedSet(s: set<int>, n: nat)
    requires forall i | i in s :: 0 <= i < n
    ensures |s| <= n
  {
    if n == 0 {
      assert forall i :: i !in s;
      assert s == {};
    } else {
      var t := s - {n - 1};
      BoundedSet(t, n - 1);
      if n - 1 in s {
        assert s == t + {n - 1};
      } else {
        assert s == t;
      }
    }
  }

  /** A pass that is not clean breaks a rule that none before it broke. */
  lemma PassSettles(rules: seq<Rule>, base: Flat, start: Flat, before: set<int>) returns (settled: set<int>)
    requires Clean(rules, base) && Gone(rules, start, before) && !Clean(rules, base + start)
    ensures Gone(rules, Left(rules, base, start, |rules|), settled) && |settled| == |before| + 1
  {
    CleanIsUnbroken(rules, base, start);
    var i :| Broken(rules, base, start, i);
    SettledHolds(rules, base, start, before);
    BrokenIsGone(rules, base, start, before, i);
    settled := before + {i};
  }

  lemma NextSettles(rules: seq<Rule>, base: Flat, starts: seq<Flat>, m: nat, before: set<int>)
    returns (settled: set<int>)
    requires Clean(rules, base) && m < |starts| - 1 && Follows(rules, base, starts, m) && Dirty(rules, base, starts, m)
    requires Gone(rules, starts[m], before)
    ensures Gone(rules, starts[m + 1], settled) && |settled| == |before| + 1
  {
    settled := PassSettles(rules, base, starts[m], before);
  }

  lemma {:induction false} EachPassSettles(rules: seq<Rule>, base: Flat, first: Flat, starts: seq<Flat>, n: nat)
    returns (settled: set<int>)
    requires Clean(rules, base) && Passes(rules, base, first, starts) && n < |starts|
    requires forall m: nat | m < n :: Dirty(rules, base, starts, m)
    ensures Gone(rules, starts[n], settled) && |settled| == n
  {
    settled := {};
    if n > 0 {
      settled := EachPassSettles(rules, base, first, starts, n - 1);
      assert Follows(rules, base, starts, n - 1) && Dirty(rules, base, starts, n - 1);
      settled := NextSettles(rules, base, starts, n - 1, settled);
    }
  }

  /** So there are never more dirty passes than rules. */
  lemma DirtyPasses(rules: seq<Rule>, base: Flat, first: Flat, starts: seq<Flat>, n: nat)
    requires Clean(rules, base) && Passes(rules, base, first, starts) && n < |starts|
    requires forall m: nat | m < n :: Dirty(rules, base, starts, m)
    ensures n <= |rules|
  {
    var settled := EachPassSettles(rules, base, first, starts, n);
    BoundedSet(settled, |rules|);
  }

  /** A clean pass changes nothing. */
  lemma CleanPass(rules: seq<Rule>, base: Flat, start: Flat)
    requires Readable(rules, base) && Clean(rules, base + start)
    ensures Left(rules, base, start, |rules|) == start
  {
    CleanIsUnbroken(rules, base, start);
    assert forall k :: !Taken(rules, base, start, |rules|, k);
  }

  // ----- validate

  /** The passes, up to the first clean one or one more than there are rules. The passes made are given by `starts`. */
  method Settle(rules: seq<Rule>, base: Flat, first: Flat, firstBad: map<string, string>)
    returns (accepted: Flat, rejected: map<string, string>, ghost starts: seq<Flat>)
    requires Readable(rules, base)
    ensures Made(rules, base, first, starts) && accepted == starts[|starts| - 1]
    ensures Clean(rules, base) ==> Clean(rules, base + accepted)
    ensures forall k :: k in rejected <==> k in firstBad || EverReported(rules, base, starts, |starts| - 1, k)
    ensures forall k | k in firstBad :: rejected[k] == firstBad[k]
  {
    accepted, rejected, starts := first, firstBad, [first];
    var clean, n := false, 0;
    while n < |rules| + 1 && !clean
      invariant Passes(rules, base, first, starts) && |starts| == n + 1 && accepted == starts[n] && n <= |rules| + 1
      invariant forall m: nat | m < (if clean then n - 1 else n) :: Dirty(rules, base, starts, m)
      invariant clean ==> n > 0 && Clean(rules, base + accepted)
      invariant forall k :: k in rejected <==> k in firstBad || EverReported(rules, base, starts, n, k)
      invariant forall k | k in firstBad :: rejected[k] == firstBad[k]
      decreases |rules| + 1 - n
    {
      ghost var before := starts;
      accepted, rejected, clean, starts := NextPass(rules, base, accepted, rejected, first, starts);
      n := n + 1;
      assert forall m: nat | m < n - 1 :: Dirty(rules, base, before, m);
    }
    if Clean(rules, base) && !clean {
      DirtyPasses(rules, base, first, starts, n);
    }
  }

  method NextPass(
    rules: seq<Rule>, base: Flat, accepted: Flat, rejected: map<string, string>,
    ghost first: Flat, ghost starts: seq<Flat>)
    returns (accepted': Flat, rejected': map<string, string>, clean: bool, ghost starts': seq<Flat>)
    requires Readable(rules, base) && Passes(rules, base, first, starts) && accepted == starts[|starts| - 1]
    ensures Passes(rules, base, first, starts') && |starts'| == |starts| + 1 && accepted' == starts'[|starts|]
    ensures clean <==> !Dirty(rules, base, starts', |starts| - 1)
    ensures forall m: nat | m < |starts| - 1 :: Dirty(rules, base, starts', m) <==> Dirty(rules, base, starts, m)
    ensures clean ==> Clean(rules, base + accepted')
    ensures forall k | k in rejected :: k in rejected' && rejected'[k] == rejected[k]
    ensures forall k :: (k in rejected' <==> k in rejected || ReportedIn(rules, base, starts', |starts| - 1, k))
    ensures forall k :: EverReported(rules, base, starts', |starts|, k) <==>
              EverReported(rules, base, starts, |starts| - 1, k) || ReportedIn(rules, base, starts', |starts| - 1, k)
  {
    var dirty;
    accepted', rejected', dirty := Pass(rules, base, accepted, rejected);
    starts' := starts + [accepted'];
    OneMorePass(rules, base, first, starts, starts', |starts| - 1);
    clean := !dirty;
    if clean {
      CleanPass(rules, base, accepted);
    }
  }

  lemma OneMorePass(rules: seq<Rule>, base: Flat, first: Flat, before: seq<Flat>, starts: seq<Flat>, n: nat)
    requires Readable(rules, base) && Passes(rules, base, first, before) && |before| == n + 1 && |starts| == n + 2
    requires starts == before + [Left(rules, base, before[n], |rules|)]
    ensures Passes(rules, base, first, starts) && starts[n] == before[n]
    ensures forall m: nat | m < n :: Dirty(rules, base, starts, m) <==> Dirty(rules, base, before, m)
    ensures forall k :: EverReported(rules, base, starts, n + 1, k) <==>
              EverReported(rules, base, before, n, k) || ReportedIn(rules, base, starts, n, k)
  {
    forall m | 0 <= m < |starts| - 1
      ensures Follows(rules, base, starts, m)
    {
      if m < n {
        assert Follows(rules, base, before, m);
      }
    }
    forall m: nat, k | m <= n
      ensures ReportedIn(rules, base, starts, m, k) <==> ReportedIn(rules, base, before, m, k)
    {
      assert starts[m] == before[m];
    }
  }

  /** The pass from `starts[m]`, or one after it, reports `k`. */
  ghost predicate ReportedFrom(rules: seq<Rule>, base: Flat, starts: seq<Flat>, m: nat, k: string)
    requires Readable(rules, base)
  {
    exists i: nat :: m <= i < |starts| - 1 && ReportedIn(rules, base, starts, i, k)
  }

  lemma ReportedFromNext(rules: seq<Rule>, base: Flat, starts: seq<Flat>, m: nat, k: string)
    requires Readable(rules, base) && m < |starts| - 1
    ensures ReportedFrom(rules, base, starts, m, k) <==>
              ReportedIn(rules, base, starts, m, k) || ReportedFrom(rules, base, starts, m + 1, k)
  {
  }

  /** A clean pass is the last one, and reports nothing. */
  lemma CleanIsLast(rules: seq<Rule>, base: Flat, first: Flat, starts: seq<Flat>, m: nat)
    requires Readable(rules, base) && Made(rules, base, first, starts) && m < |starts| - 1
    requires Clean(rules, base + starts[m])
    ensures m == |starts| - 2 && starts[m + 1] == starts[m]
    ensures forall k :: !ReportedIn(rules, base, starts, m, k)
  {
    assert m < |starts| - 2 ==> Dirty(rules, base, starts, m);
    assert Follows(rules, base, starts, m);
    CleanPass(rules, base, starts[m]);
    CleanIsUnbroken(rules, base, starts[m]);
  }

  /** The passes made from pass `m` on leave what `Remaining` says. */
  lemma {:induction false} PassesLeave(rules: seq<Rule>, base: Flat, first: Flat, starts: seq<Flat>, m: nat)
    requires Readable(rules, base) && Made(rules, base, first, starts) && m < |starts|
    ensures Remaining(rules, base, starts[m], |rules| + 1 - m) == starts[|starts| - 1]
    decreases |starts| - m
  {
    if m < |starts| - 1 {
      PassesLeave(rules, base, first, starts, m + 1);
      if Clean(rules, base + starts[m]) {
        CleanIsLast(rules, base, first, starts, m);
      } else {
        assert Follows(rules, base, starts, m);
      }
    }
  }

  /** And they report what `Complained` says. */
  lemma {:induction false} PassesMade(
    rules: seq<Rule>, base: Flat, first: Flat, starts: seq<Flat>, m: nat, k: string)
    requires Readable(rules, base) && Made(rules, base, first, starts) && m < |starts|
    ensures Complained(rules, base, starts[m], |rules| + 1 - m, k) <==> ReportedFrom(rules, base, starts, m, k)
    decreases |starts| - m
  {
    if m < |starts| - 1 {
      PassesMade(rules, base, first, starts, m + 1, k);
      ReportedFromNext(rules, base, starts, m, k);
      if Clean(rules, base + starts[m]) {
        CleanIsLast(rules, base, first, starts, m);
      } else {
        assert Follows(rules, base, starts, m);
      }
    }
  }

  lemma AllPassesMade(rules: seq<Rule>, base: Flat, first: Flat, starts: seq<Flat>)
    requires Readable(rules, base) && Made(rules, base, first, starts)
    ensures Survivors(rules, base, first) == starts[|starts| - 1]
    ensures forall k :: Blamed(rules, base, first, k) <==> EverReported(rules, base, starts, |starts| - 1, k)
  {
    PassesLeave(rules, base, first, starts, 0);
    forall k
      ensures Blamed(rules, base, first, k) <==> EverReported(rules, base, starts, |starts| - 1, k)
    {
      PassesMade(rules, base, first, starts, 0, k);
      if ReportedFrom(rules, base, starts, 0, k) {
        var i: nat :| i < |starts| - 1 && ReportedIn(rules, base, starts, i, k);
        assert EverReported(rules, base, starts, |starts| - 1, k);
      }
    }
  }

  /** `validate`, for every base; `starts` gives the passes it makes, from the updates that pass their own check. A key
      is rejected exactly when its own value is bad or some pass reports it; every updated key but `schema` ends up in
      exactly one of the two results; accepted values are the normalized ones. A key that was not updated is rejected
      exactly where some pass comes to a broken rule that reads it and whose updated keys have all been taken out by
      rules before it. If the base satisfies every rule and bound, so does base plus accepted; and if the base plus all
      passing updates satisfies every rule, all of them are accepted. */
  method Validate(rules: seq<Rule>, specs: map<string, Spec>, updates: Flat, base: Flat)
    returns (accepted: Flat, rejected: map<string, string>, ghost starts: seq<Flat>)
    requires Readable(rules, base)
    ensures Made(rules, base, PassingUpdates(specs, updates), starts) && accepted == starts[|starts| - 1]
    ensures accepted == Survivors(rules, base, PassingUpdates(specs, updates))
    ensures forall k :: k in rejected <==>
              || (k in updates && CheckOne(specs, k, updates[k]).Bad?)
              || Blamed(rules, base, PassingUpdates(specs, updates), k)
    ensures Part(accepted, PassingUpdates(specs, updates)) && accepted.Keys !! rejected.Keys
    ensures forall k | k in updates && k != "schema" :: k in accepted || k in rejected
    ensures forall k :: k in rejected <==>
              || (k in updates && CheckOne(specs, k, updates[k]).Bad?)
              || EverReported(rules, base, starts, |starts| - 1, k)
    ensures forall k | k !in updates :: k in rejected <==> EverOrphaned(rules, base, starts, k)
    ensures Clean(rules, base) ==> Clean(rules, base + accepted)
    ensures Bounded(specs, base) ==> Bounded(specs, base + accepted)
    ensures Clean(rules, base + PassingUpdates(specs, updates)) ==> accepted == PassingUpdates(specs, updates)
  {
    var first, firstBad := CheckEach(specs, updates);
    accepted, rejected, starts := Settle(rules, base, first, firstBad);
    SettledFacts(rules, base, first, starts);
    AllPassesMade(rules, base, first, starts);
    PartBounded(specs, updates, base, accepted);
  }

  /** Some pass leaves a rule that reads `k` without updated keys. */
  ghost predicate EverOrphaned(rules: seq<Rule>, base: Flat, starts: seq<Flat>, k: string)
    requires Readable(rules, base)
  {
    exists m: nat, j :: m < |starts| - 1 && OrphanedIn(rules, base, starts, m, j, k)
  }

  lemma SettledFacts(rules: seq<Rule>, base: Flat, first: Flat, starts: seq<Flat>)
    requires Readable(rules, base) && Made(rules, base, first, starts)
    ensures var accepted := starts[|starts| - 1];
      && (forall k :: k in accepted <==> k in first && !EverReported(rules, base, starts, |starts| - 1, k))
      && Part(accepted, first)
      && (forall k | k !in first ::
            EverReported(rules, base, starts, |starts| - 1, k) <==> EverOrphaned(rules, base, starts, k))
      && (Clean(rules, base + first) ==> accepted == first)
  {
    var n := |starts| - 1;
    forall k
      ensures k in starts[n] <==> k in first && !EverReported(rules, base, starts, n, k)
      ensures k in starts[n] ==> starts[n][k] == first[k]
    {
      OutIsReported(rules, base, first, starts, n, k);
    }
    forall k | k !in first
      ensures EverReported(rules, base, starts, n, k) <==> EverOrphaned(rules, base, starts, k)
    {
      OutsideEverOrphaned(rules, base, first, starts, k);
    }
    if Clean(rules, base + first) {
      CleanAtOnce(rules, base, first, starts);
    }
  }

  lemma CleanAtOnce(rules: seq<Rule>, base: Flat, first: Flat, starts: seq<Flat>)
    requires Readable(rules, base) && Made(rules, base, first, starts)
    requires Clean(rules, base + first)
    ensures |starts| == 2 && starts[1] == first
  {
    assert !Dirty(rules, base, starts, 0);
    assert Follows(rules, base, starts, 0);
    CleanPass(rules, base, first);
  }

  lemma OutsideEverOrphaned(rules: seq<Rule>, base: Flat, first: Flat, starts: seq<Flat>, k: string)
    requires Readable(rules, base) && Passes(rules, base, first, starts) && k !in first
    ensures EverReported(rules, base, starts, |starts| - 1, k) <==> EverOrphaned(rules, base, starts, k)
  {
    if EverReported(rules, base, starts, |starts| - 1, k) {
      var m: nat :| m < |starts| - 1 && ReportedIn(rules, base, starts, m, k);
      OutIsReported(rules, base, first, starts, m, k);
      OutsideIsOrphaned(rules, base, starts, m, k);
      var j :| OrphanedIn(rules, base, starts, m, j, k);
    }
    if EverOrphaned(rules, base, starts, k) {
      var m: nat, j :| m < |starts| - 1 && OrphanedIn(rules, base, starts, m, j, k);
      OutIsReported(rules, base, first, starts, m, k);
      OutsideIsOrphaned(rules, base, starts, m, k);
      assert ReportedIn(rules, base, starts, m, k);
    }
  }

  /** Every known key holds a value it may have. */
  ghost predicate Bounded(specs: map<string, Spec>, m: Flat) {
    forall k | k in m && k in specs :: Admits(specs[k], m[k])
  }

  /** Passing updates are within bounds. */
  lemma PartBounded(specs: map<string, Spec>, updates: Flat, base: Flat, accepted: Flat)
    requires Part(accepted, PassingUpdates(specs, updates))
    ensures Bounded(specs, base) ==> Bounded(specs, base + accepted)
  {
    forall k | k in accepted
      ensures k in specs && Admits(specs[k], accepted[k])
    {
      KeysChecked(specs, k, updates[k]);
    }
  }
}
