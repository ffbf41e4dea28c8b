/** The line format of a profile: comments, key=value lines, and the table the loader fills from them. */
module ProfileLines {
  import opened ProfileText

  type Pair = (string, string)

  type Table = map<string, string>

  datatype Reading = Values(table: Table) | Broken(reason: string)

  function Line(p: Pair): string { p.0 + "=" + p.1 + "\n" }

  /** The text of a list of pairs, one line each. */
  function Text(ps: seq<Pair>): string {
    if ps == [] then "" else Line(ps[0]) + Text(ps[1..])
  }

  /** Repeated `getline`. */
  function Lines(s: string): seq<string>
    decreases |s|
  {
    if s == [] then [] else [s[..Find(s, '\n')]] + Lines(AfterLine(s))
  }

  function AfterLine(s: string): (r: string)
    requires s != []
    ensures |r| < |s|
  {
    var i := Find(s, '\n');
    if i < |s| then s[i + 1..] else []
  }

  /** One line goes into the table. */
  function Enter(l: string, table: Table): Reading {
    if l == [] || l[0] == '#' then Values(table)
    else
      var i := Find(l, '=');
      if i == |l| || i == 0 then Broken("profile contains a malformed line")
      else if !SafeText(l[..i]) || !SafeText(l[i + 1..]) || l[..i] in table
          then Broken("profile contains an invalid or duplicate key")
      else Values(table[l[..i] := l[i + 1..]])
  }

  function Collect(ls: seq<string>, table: Table): Reading {
    if ls == [] then Values(table)
    else match Enter(ls[0], table)
      case Broken(reason) => Broken(reason)
      case Values(t) => Collect(ls[1..], t)
  }

  /** The loader's loop over the lines. */
  method ReadValues(content: string) returns (r: Reading)
    ensures r == Collect(Lines(content), map[])
  {
    var rest, table: Table := content, map[];
    while rest != []
      invariant Collect(Lines(content), map[]) == Collect(Lines(rest), table)
      decreases |rest|
    {
      var l := rest[..Find(rest, '\n')];
      assert Lines(rest)[1..] == Lines(AfterLine(rest));
      match Enter(l, table) {
        case Broken(reason) =>
          return Broken(reason);
        case Values(t) =>
          table := t;
      }
      rest := AfterLine(rest);
    }
    return Values(table);
  }

  // ----- Which lines are taken

  predicate Skipped(l: string) { l == [] || l[0] == '#' }

  /** The line is a key and a value, either of them text the format allows. */
  ghost predicate PairLine(l: string, k: string, v: string) {
    l == k + "=" + v && SafeText(k) && SafeText(v)
  }

  /** A line that is neither blank nor a comment is taken exactly when it is a pair with a new key. */
  lemma EntersExactly(l: string, table: Table)
    ensures Skipped(l) ==> Enter(l, table) == Values(table)
    ensures !Skipped(l) ==>
              (Enter(l, table).Values? <==> exists k, v :: PairLine(l, k, v) && k !in table)
    ensures forall k, v | !Skipped(l) && PairLine(l, k, v) && k !in table ::
              Enter(l, table) == Values(table[k := v])
  {
    if !Skipped(l) {
      var i := Find(l, '=');
      if i < |l| {
        assert l == l[..i] + "=" + l[i + 1..];
        if Enter(l, table).Values? {
          assert PairLine(l, l[..i], l[i + 1..]);
        }
      }
      forall k, v | PairLine(l, k, v)
        ensures i < |l| && k == l[..i] && v == l[i + 1..]
      {
        NoNewline(k);
        FindAfter(k, '=', v);
        assert l == k + ['='] + v;
        assert l[..|k|] == k && l[|k| + 1..] == v;
      }
    }
  }

  /** Lines are read one by one until one is refused. */
  lemma CollectStep(l: string, rest: seq<string>, table: Table)
    ensures Collect([l] + rest, table)
            == if Enter(l, table).Values? then Collect(rest, Enter(l, table).table) else Enter(l, table)
  {
    assert ([l] + rest)[1..] == rest;
  }

  // ----- Reading what was written

  /** A pair the format can hold. */
  ghost predicate Holdable(p: Pair) { SafeText(p.0) && SafeText(p.1) && p.0[0] != '#' }

  ghost predicate AllHoldable(ps: seq<Pair>) { forall i | 0 <= i < |ps| :: Holdable(ps[i]) }

  ghost predicate Distinct(ps: seq<Pair>) { forall i, j | 0 <= i < j < |ps| :: ps[i].0 != ps[j].0 }

  ghost predicate Absent(ps: seq<Pair>, table: Table) { forall i | 0 <= i < |ps| :: ps[i].0 !in table }

  /** The table holds exactly the pairs. */
  ghost predicate Filled(ps: seq<Pair>, table: Table) {
    && (forall i | 0 <= i < |ps| :: ps[i].0 in table && table[ps[i].0] == ps[i].1)
    && (forall k | k in table :: HasKey(ps, k))
  }

  ghost predicate HasKey(ps: seq<Pair>, k: string) { exists i :: 0 <= i < |ps| && ps[i].0 == k }

  lemma NoNewline(s: string)
    requires SafeChars(s)
    ensures Lacks(s, '\n') && Lacks(s, '=')
  {
  }

  lemma FirstLine(p: Pair, rest: string)
    requires Holdable(p)
    ensures Lines(Line(p) + rest) == [p.0 + "=" + p.1] + Lines(rest)
  {
    NoNewline(p.0);
    NoNewline(p.1);
    var l := p.0 + "=" + p.1;
    FindAfter(l, '\n', rest);
    assert Line(p) + rest == l + ['\n'] + rest;
    assert (l + ['\n'] + rest)[..|l|] == l && (l + ['\n'] + rest)[|l| + 1..] == rest;
  }

  lemma EnterPair(p: Pair, table: Table)
    requires Holdable(p) && p.0 !in table
    ensures Enter(p.0 + "=" + p.1, table) == Values(table[p.0 := p.1])
  {
    NoNewline(p.0);
    var l := p.0 + "=" + p.1;
    FindAfter(p.0, '=', p.1);
    assert l == p.0 + ['='] + p.1 && l[..|p.0|] == p.0 && l[|p.0| + 1..] == p.1;
  }

  ghost function AddAll(ps: seq<Pair>, table: Table): Table {
    if ps == [] then table else AddAll(ps[1..], table[ps[0].0 := ps[0].1])
  }

  lemma {:induction false} CollectText(ps: seq<Pair>, table: Table)
    requires AllHoldable(ps) && Distinct(ps) && Absent(ps, table)
    ensures Collect(Lines(Text(ps)), table) == Values(AddAll(ps, table))
  {
    if ps != [] {
      var p, rest := ps[0], ps[1..];
      FirstLine(p, Text(rest));
      EnterPair(p, table);
      assert forall i | 0 <= i < |rest| :: rest[i] == ps[i + 1];
      CollectText(rest, table[p.0 := p.1]);
      assert Lines(Text(ps))[1..] == Lines(Text(rest));
    }
  }

  lemma {:induction false} AddAllKeeps(ps: seq<Pair>, table: Table, k: string)
    requires !HasKey(ps, k)
    ensures k in AddAll(ps, table) <==> k in table
    ensures k in table ==> AddAll(ps, table)[k] == table[k]
  {
    if ps != [] {
      assert ps[0].0 != k;
      assert forall i | 0 <= i < |ps[1..]| :: ps[1..][i] == ps[i + 1];
      AddAllKeeps(ps[1..], table[ps[0].0 := ps[0].1], k);
    }
  }

  lemma {:induction false} AddAllAt(ps: seq<Pair>, table: Table, i: nat)
    requires Distinct(ps) && i < |ps|
    ensures ps[i].0 in AddAll(ps, table) && AddAll(ps, table)[ps[i].0] == ps[i].1
  {
    var rest, next := ps[1..], table[ps[0].0 := ps[0].1];
    assert forall j | 0 <= j < |rest| :: rest[j] == ps[j + 1];
    if i > 0 {
      AddAllAt(rest, next, i - 1);
    } else {
      AddAllKeeps(rest, next, ps[0].0);
    }
  }

  lemma AddAllFills(ps: seq<Pair>)
    requires Distinct(ps)
    ensures Filled(ps, AddAll(ps, map[]))
  {
    forall i | 0 <= i < |ps|
      ensures ps[i].0 in AddAll(ps, map[]) && AddAll(ps, map[])[ps[i].0] == ps[i].1
    {
      AddAllAt(ps, map[], i);
    }
    forall k | k in AddAll(ps, map[])
      ensures HasKey(ps, k)
    {
      if !HasKey(ps, k) {
        AddAllKeeps(ps, map[], k);
      }
    }
  }

  /** A comment line before the pairs is skipped. */
  lemma CollectCommented(comment: string, ps: seq<Pair>)
    requires SafeChars(comment) && comment != [] && comment[0] == '#' && AllHoldable(ps) && Distinct(ps)
    ensures var r := Collect(Lines(comment + "\n" + Text(ps)), map[]); r.Values? && Filled(ps, r.table)
  {
    NoNewline(comment);
    var rest := Text(ps);
    FindAfter(comment, '\n', rest);
    var s := comment + ['\n'] + rest;
    assert s[..|comment|] == comment && s[|comment| + 1..] == rest;
    assert Lines(s)[0] == comment && Lines(s)[1..] == Lines(rest);
    CollectText(ps, map[]);
    AddAllFills(ps);
  }

  lemma {:induction false} TextLength(ps: seq<Pair>, bound: nat)
    requires forall i | 0 <= i < |ps| :: |Line(ps[i])| <= bound
    ensures |Text(ps)| <= |ps| * bound
  {
    if ps != [] {
      TextLength(ps[1..], bound);
      assert |ps| * bound == bound + |ps[1..]| * bound;
    }
  }
}
