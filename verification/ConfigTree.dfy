/** The nested configuration: flattening to dotted keys, applying dotted updates, and building a whole configuration
    from whatever a file holds. */
module ConfigTree {
  import opened Options
  import opened ConfigRules

  /** A JSON value that is a dictionary or a scalar. */
  datatype Node = Leaf(v: Value) | Dict(m: map<string, Node>)

  type Path = seq<string>

  // ----- Dotted keys

  predicate DotFree(s: string) { '.' !in s }

  /** A path of dot-free parts. */
  ghost predicate Plain(p: Path) { p != [] && forall i | 0 <= i < |p| :: DotFree(p[i]) }

  function Join(p: Path): string
    requires p != []
  {
    if |p| == 1 then p[0] else p[0] + "." + Join(p[1..])
  }

  /** `s.split(".")`, with the part read so far in `part`. */
  function SplitFrom(s: string, part: string): Path {
    if s == [] then [part]
    else if s[0] == '.' then [part] + SplitFrom(s[1..], [])
    else SplitFrom(s[1..], part + [s[0]])
  }

  function Split(s: string): Path { SplitFrom(s, []) }

  lemma {:induction false} SplitHead(a: string, rest: string, part: string)
    requires DotFree(a)
    ensures SplitFrom(a, part) == [part + a]
    ensures SplitFrom(a + "." + rest, part) == [part + a] + SplitFrom(rest, [])
  {
    if a == [] {
      assert (a + "." + rest)[1..] == rest;
      assert part + a == part;
    } else {
      SplitHead(a[1..], rest, part + [a[0]]);
      assert (a + "." + rest)[1..] == a[1..] + "." + rest;
      assert part + [a[0]] + a[1..] == part + a;
    }
  }

  /** Splitting undoes joining. */
  lemma {:induction false} SplitJoin(p: Path)
    requires Plain(p)
    ensures Split(Join(p)) == p
  {
    if |p| == 1 {
      SplitHead(p[0], [], []);
      assert p == [p[0]] && [] + p[0] == p[0];
    } else {
      SplitJoin(p[1..]);
      SplitHead(p[0], Join(p[1..]), []);
      assert [] + p[0] == p[0] && p == [p[0]] + p[1..];
    }
  }

  /** Joining undoes splitting. */
  lemma {:induction false} JoinSplit(s: string, part: string)
    requires DotFree(part)
    ensures Plain(SplitFrom(s, part)) && Join(SplitFrom(s, part)) == part + s
  {
    if s != [] {
      if s[0] == '.' {
        JoinSplit(s[1..], []);
        var p := SplitFrom(s, part);
        assert p[1..] == SplitFrom(s[1..], []);
        assert part + "." + s[1..] == part + s;
      } else {
        JoinSplit(s[1..], part + [s[0]]);
        assert part + [s[0]] + s[1..] == part + s;
      }
    }
  }

  // ----- Trees

  /** The scalar at a path. */
  ghost function At(t: Node, p: Path): Option<Value>
    decreases |p|
  {
    if p == [] then if t.Leaf? then Some(t.v) else None
    else if t.Dict? && p[0] in t.m then At(t.m[p[0]], p[1..])
    else None
  }

  /** No name in the tree holds a dot. */
  ghost predicate PlainTree(t: Node) {
    t.Dict? ==> forall k | k in t.m :: DotFree(k) && PlainTree(t.m[k])
  }

  /** `f` is the flat form of `t`, every key under `prefix`. */
  ghost predicate Flattens(t: Node, prefix: string, f: Flat) {
    && (forall p | Plain(p) && At(t, p).Some? :: Entry(f, prefix + Join(p), At(t, p).value))
    && (forall k | k in f :: Under(t, prefix, k))
  }

  ghost predicate Entry(f: Flat, k: string, v: Value) { k in f && f[k] == v }

  /** `k` is the dotted name of a scalar in `t`. */
  ghost predicate Under(t: Node, prefix: string, k: string) {
    exists p :: Plain(p) && At(t, p).Some? && k == prefix + Join(p)
  }

  /** The flat form is one map. */
  lemma FlatIsUnique(t: Node, f: Flat, g: Flat)
    requires Flattens(t, "", f) && Flattens(t, "", g)
    ensures f == g
  {
    forall k | k in f
      ensures Entry(g, k, f[k])
    {
      var p :| Plain(p) && At(t, p).Some? && k == "" + Join(p);
      assert Entry(f, "" + Join(p), At(t, p).value) && Entry(g, "" + Join(p), At(t, p).value);
    }
    forall k | k in g
      ensures k in f
    {
      var p :| Plain(p) && At(t, p).Some? && k == "" + Join(p);
      assert Entry(f, "" + Join(p), At(t, p).value);
    }
  }

  // ----- Applying one update

  /** The update meets no scalar on its way; at its end there may be anything, or nothing. */
  predicate Fits(t: Node, p: Path)
    decreases |p|
  {
    p == [] || (t.Dict? && (p[0] in t.m ==> Fits(t.m[p[0]], p[1..])))
  }

  /** `setdefault` down the path, then the assignment, which replaces whatever was there. */
  function Put(t: Node, p: Path, v: Value): Node
    requires p != [] && Fits(t, p)
    decreases |p|
  {
    if |p| == 1 then Dict(t.m[p[0] := Leaf(v)])
    else
      var child := if p[0] in t.m then t.m[p[0]] else Dict(map[]);
      Dict(t.m[p[0] := Put(child, p[1..], v)])
  }

  /** Afterwards the value is at its path, nothing is below it, and everything else is as it was. */
  lemma {:induction false} AtPut(t: Node, p: Path, v: Value, q: Path)
    requires p != [] && Fits(t, p)
    ensures At(Put(t, p, v), q) == if q == p then Some(v) else if p <= q then None else At(t, q)
    decreases |p|
  {
    if q != [] && q[0] == p[0] {
      assert p == [p[0]] + p[1..] && q == [q[0]] + q[1..];
      assert (q == p <==> q[1..] == p[1..]) && (p <= q <==> p[1..] <= q[1..]);
      if |p| > 1 {
        var child := if p[0] in t.m then t.m[p[0]] else Dict(map[]);
        AtPut(child, p[1..], v, q[1..]);
      }
    }
  }

  lemma {:induction false} JoinConcat(p: Path, r: Path)
    requires p != [] && r != []
    ensures Join(p + r) == Join(p) + "." + Join(r)
  {
    if |p| == 1 {
      assert (p + r)[1..] == r;
    } else {
      JoinConcat(p[1..], r);
      assert (p + r)[1..] == p[1..] + r;
      Assoc(p[0] + ".", Join(p[1..]), ".", Join(r));
    }
  }

  lemma {:induction false} SplitPrefix(p: Path, rest: string)
    requires Plain(p)
    ensures Split(Join(p) + "." + rest) == p + Split(rest)
  {
    if |p| == 1 {
      SplitHead(p[0], rest, []);
      assert [] + p[0] == p[0] && p == [p[0]];
    } else {
      var tail := Join(p[1..]) + "." + rest;
      assert forall i | 0 <= i < |p| - 1 :: p[1..][i] == p[i + 1];
      SplitPrefix(p[1..], rest);
      SplitHead(p[0], tail, []);
      Assoc(p[0] + ".", Join(p[1..]), ".", rest);
      Assoc(p[0], ".", Join(p[1..]), "." + rest);
      assert [] + p[0] == p[0] && p == [p[0]] + p[1..];
      assert Join(p) + "." + rest == p[0] + "." + tail;
    }
  }

  /** One dotted key runs through another exactly when its path does. */
  lemma KeyBelow(p: Path, q: Path)
    requires Plain(p) && Plain(q)
    ensures Join(p) + "." <= Join(q) <==> p <= q && p != q
  {
    if Join(p) + "." <= Join(q) {
      var rest := Join(q)[|Join(p)| + 1..];
      assert Join(q) == Join(p) + "." + rest;
      SplitPrefix(p, rest);
      SplitJoin(q);
      JoinSplit(rest, []);
    }
    if p <= q && p != q {
      var r := q[|p|..];
      assert q == p + r;
      JoinConcat(p, r);
    }
  }

  lemma JoinInjective(prefix: string, p: Path, q: Path)
    requires Plain(p) && Plain(q) && prefix + Join(p) == prefix + Join(q)
    ensures p == q
  {
    assert Join(p) == (prefix + Join(p))[|prefix|..] && Join(q) == (prefix + Join(q))[|prefix|..];
    SplitJoin(p);
    SplitJoin(q);
  }

  /** A flat form with one key assigned: the keys below it are gone. */
  ghost function Assigned(f: Flat, key: string, v: Value): Flat {
    map k | k in f.Keys + {key} && (k == key || !(key + "." <= k)) :: if k == key then v else f[k]
  }

  /** One update changes the flat form at its own key and below, and nowhere else. */
  lemma FlatPut(t: Node, p: Path, v: Value, f: Flat)
    requires Plain(p) && Fits(t, p) && Flattens(t, "", f)
    ensures Flattens(Put(t, p, v), "", Assigned(f, Join(p), v))
  {
    var t', g := Put(t, p, v), Assigned(f, Join(p), v);
    forall q | Plain(q) && At(t', q).Some?
      ensures Entry(g, "" + Join(q), At(t', q).value)
    {
      AtPut(t, p, v, q);
      assert "" + Join(q) == Join(q);
      if q != p {
        assert Entry(f, "" + Join(q), At(t, q).value);
        KeyBelow(p, q);
        if Join(q) == Join(p) {
          JoinInjective("", p, q);
        }
      }
    }
    forall k | k in g
      ensures Under(t', "", k)
    {
      if k == Join(p) {
        AtPut(t, p, v, p);
        assert k == "" + Join(p);
      } else {
        assert Under(t, "", k);
        var q :| Plain(q) && At(t, q).Some? && k == "" + Join(q);
        assert Join(q) == k && q != p;
        KeyBelow(p, q);
        AtPut(t, p, v, q);
        assert At(t', q).Some?;
      }
    }
  }

  lemma {:induction false} PutPlain(t: Node, p: Path, v: Value)
    requires Plain(p) && Fits(t, p) && PlainTree(t)
    ensures PlainTree(Put(t, p, v))
    decreases |p|
  {
    if |p| > 1 {
      assert forall i | 0 <= i < |p| - 1 :: p[1..][i] == p[i + 1];
      PutPlain(if p[0] in t.m then t.m[p[0]] else Dict(map[]), p[1..], v);
    }
  }

  // ----- apply_updates

  /** One item of the dictionary of updates, which has an order. */
  datatype Update = Update(key: string, value: Value)

  lemma SplitKey(k: string)
    ensures Plain(Split(k)) && Join(Split(k)) == k
  {
    JoinSplit(k, []);
    assert [] + k == k;
  }

  /** A scalar stands in the way of `k`. */
  ghost predicate Blocked(f: Flat, k: string) {
    exists x :: x in f && x + "." <= k
  }

  /** A path meets a scalar at one of its ends before the last. */
  lemma {:induction false} FitsScalars(t: Node, p: Path)
    ensures Fits(t, p) <==> forall j | 0 <= j < |p| :: At(t, p[..j]).None?
    decreases |p|
  {
    if p != [] {
      assert At(t, p[..0]).None? <==> t.Dict?;
      if t.Dict? && p[0] in t.m {
        FitsScalars(t.m[p[0]], p[1..]);
        assert forall j | 0 <= j < |p| - 1 :: p[..j + 1][1..] == p[1..][..j] && p[..j + 1][0] == p[0];
        forall j | 1 <= j < |p|
          ensures At(t, p[..j]) == At(t.m[p[0]], p[1..][..j - 1])
        {
          assert p[..j][1..] == p[1..][..j - 1];
        }
      }
    }
  }

  /** So an update can be applied exactly when no scalar of the flat form stands in its way. */
  lemma FitsExactly(t: Node, k: string, f: Flat)
    requires t.Dict? && Flattens(t, "", f)
    ensures Fits(t, Split(k)) <==> !Blocked(f, k)
  {
    var p := Split(k);
    SplitKey(k);
    FitsScalars(t, p);
    if Blocked(f, k) {
      var x :| x in f && x + "." <= k;
      assert Under(t, "", x);
      var q :| Plain(q) && At(t, q).Some? && x == "" + Join(q);
      assert Join(q) == x;
      KeyBelow(q, p);
      assert p[..|q|] == q;
    }
    if !Fits(t, p) {
      var j :| 0 <= j < |p| && At(t, p[..j]).Some?;
      assert j > 0 && Plain(p[..j]);
      assert Entry(f, "" + Join(p[..j]), At(t, p[..j]).value);
      assert "" + Join(p[..j]) == Join(p[..j]);
      KeyBelow(p[..j], p);
    }
  }

  /** The flat form after the updates, in their order; none where one of them meets a scalar on its way, which raises.
      */
  ghost function InOrder(f: Flat, us: seq<Update>): Option<Flat> {
    if us == [] then Some(f)
    else
      var u := us[|us| - 1];
      var g := InOrder(f, us[..|us| - 1]);
      if g.None? || Blocked(g.value, u.key) then None else Some(Assigned(g.value, u.key, u.value))
  }

  ghost predicate Tracks(out: Option<Node>, g: Option<Flat>) {
    out.Some? == g.Some? && (out.Some? ==> out.value.Dict? && Flattens(out.value, "", g.value))
  }

  function PutIfFits(t: Node, u: Update): Option<Node> {
    SplitKey(u.key);
    if Fits(t, Split(u.key)) then Some(Put(t, Split(u.key), u.value)) else None
  }

  lemma TracksOn(out: Node, f: Flat, us: seq<Update>)
    requires us != [] && Tracks(Some(out), InOrder(f, us[..|us| - 1]))
    ensures Tracks(PutIfFits(out, us[|us| - 1]), InOrder(f, us))
  {
    var u, g := us[|us| - 1], InOrder(f, us[..|us| - 1]).value;
    SplitKey(u.key);
    FitsExactly(out, u.key, g);
    if Fits(out, Split(u.key)) {
      FlatPut(out, Split(u.key), u.value, g);
    }
  }

  lemma {:induction false} Stuck(f: Flat, us: seq<Update>, i: nat)
    requires i <= |us| && InOrder(f, us[..i]).None?
    ensures InOrder(f, us).None?
    decreases |us| - i
  {
    if i == |us| {
      assert us[..i] == us;
    } else {
      assert us[..i + 1][..i] == us[..i];
      Stuck(f, us, i + 1);
    }
  }

  /** One turn of the loop, whatever the flat form of `t`. */
  lemma AllTrack(t: Node, node: Node, us: seq<Update>, i: nat)
    requires i < |us| && node.Dict?
    requires forall f: Flat | Flattens(t, "", f) :: Tracks(Some(node), InOrder(f, us[..i]))
    ensures var next := PutIfFits(node, us[i]);
      && (next.Some? ==> next.value.Dict? && (PlainTree(node) ==> PlainTree(next.value)))
      && (forall f: Flat | Flattens(t, "", f) :: Tracks(next, InOrder(f, us[..i + 1])))
      && (next.None? ==> forall f: Flat | Flattens(t, "", f) :: Tracks(next, InOrder(f, us)))
  {
    var next := PutIfFits(node, us[i]);
    assert us[..i + 1][..i] == us[..i];
    forall f: Flat | Flattens(t, "", f)
      ensures Tracks(next, InOrder(f, us[..i + 1])) && (next.None? ==> Tracks(next, InOrder(f, us)))
    {
      TracksOn(node, f, us[..i + 1]);
      if next.None? {
        Stuck(f, us, i + 1);
      }
    }
    SplitKey(us[i].key);
    if PlainTree(node) && next.Some? {
      PutPlain(node, Split(us[i].key), us[i].value);
    }
  }

  /** Flattening commutes with applying, for any updates in any order: the result is none exactly when an update meets a
      scalar on its way, and otherwise its flat form is that of `t` with one key after another assigned. */
  method ApplyUpdates(t: Node, us: seq<Update>) returns (out: Option<Node>)
    requires t.Dict?
    ensures forall f: Flat | Flattens(t, "", f) :: Tracks(out, InOrder(f, us))
    ensures PlainTree(t) && out.Some? ==> PlainTree(out.value)
  {
    var node := t;
    for i := 0 to |us|
      invariant node.Dict? && (PlainTree(t) ==> PlainTree(node))
      invariant forall f: Flat | Flattens(t, "", f) :: Tracks(Some(node), InOrder(f, us[..i]))
    {
      AllTrack(t, node, us, i);
      var next := PutIfFits(node, us[i]);
      if next.None? {
        return None;
      }
      node := next.value;
    }
    assert us[..|us|] == us;
    return Some(node);
  }

  // ----- Updates that do not run through each other

  function MapOf(us: seq<Update>): Flat {
    if us == [] then map[] else var u := us[|us| - 1]; MapOf(us[..|us| - 1])[u.key := u.value]
  }

  ghost predicate Distinct(us: seq<Update>) {
    forall i, j | 0 <= i < j < |us| :: us[i].key != us[j].key
  }

  lemma {:induction false} MapOfKeys(us: seq<Update>)
    ensures forall k :: k in MapOf(us) <==> exists i :: 0 <= i < |us| && us[i].key == k
  {
    if us != [] {
      MapOfKeys(us[..|us| - 1]);
    }
  }

  /** No updated key runs through another one. */
  ghost predicate Independent(updates: Flat) {
    forall j, k | j in updates && k in updates :: !(j + "." <= k)
  }

  /** `k` lies below an updated key. */
  ghost predicate Shadowed(updates: Flat, k: string) {
    exists u :: u in updates && u + "." <= k
  }

  /** The flat form overridden by the updates: where one of them replaces a whole section, its keys are gone. */
  ghost function Overridden(f: Flat, updates: Flat): Flat {
    map k | k in f.Keys + updates.Keys && (k in updates || !Shadowed(updates, k)) ::
      if k in updates then updates[k] else f[k]
  }

  lemma OverriddenStep(f: Flat, updates: Flat, done: Flat, k: string)
    requires k in updates && k !in done && done.Keys <= updates.Keys && Independent(updates)
    ensures Assigned(Overridden(f, done), k, updates[k]) == Overridden(f, done[k := updates[k]])
  {
    var next := done[k := updates[k]];
    forall x
      ensures Shadowed(next, x) <==> Shadowed(done, x) || k + "." <= x
    {
      assert k + "." <= x ==> k in next;
      assert forall u | u in done :: u in next;
    }
  }

  /** Then the order does not matter: every updated key has its new value and everything else that is not below one is
      as it was. */
  lemma {:induction false} OrderIsFree(f: Flat, us: seq<Update>)
    requires Distinct(us) && Independent(MapOf(us)) && forall k | k in MapOf(us) :: !Blocked(f, k)
    ensures InOrder(f, us) == Some(Overridden(f, MapOf(us)))
  {
    if us == [] {
      assert Overridden(f, map[]) == f;
    } else {
      var n := |us| - 1;
      var u, done := us[n], MapOf(us[..n]);
      MapOfKeys(us[..n]);
      assert u.key in MapOf(us) && u.key !in done;
      assert forall k | k in done :: k in MapOf(us);
      OrderIsFree(f, us[..n]);
      OverriddenStep(f, MapOf(us), done, u.key);
      assert !Blocked(Overridden(f, done), u.key);
    }
  }

  /** The items of a dictionary. */
  method Items(updates: Flat) returns (us: seq<Update>)
    ensures Distinct(us) && MapOf(us) == updates
  {
    us := [];
    var todo := updates.Keys;
    while todo != {}
      invariant todo <= updates.Keys && Distinct(us)
      invariant MapOf(us) == map k | k in updates && k !in todo :: updates[k]
      decreases todo
    {
      var k :| k in todo;
      MapOfKeys(us);
      assert forall i | 0 <= i < |us| :: us[i].key in MapOf(us);
      assert (us + [Update(k, updates[k])])[..|us|] == us;
      us := us + [Update(k, updates[k])];
      todo := todo - {k};
    }
  }

  // ----- flatten

  /** `f` has the dotted name of every scalar of `t` and no other key, and each value belongs to a scalar of that name.
      */
  ghost predicate FlatOf(t: Node, prefix: string, f: Flat) {
    && (forall p | p != [] && At(t, p).Some? :: prefix + Join(p) in f)
    && (forall k | k in f :: Source(t, prefix, k, f[k]))
  }

  ghost predicate Source(t: Node, prefix: string, k: string, v: Value) {
    exists p :: p != [] && At(t, p) == Some(v) && k == prefix + Join(p)
  }

  /** The same, for the names in `done`. */
  ghost predicate FlatSoFar(t: Node, prefix: string, f: Flat, done: set<string>) {
    && (forall p | p != [] && p[0] in done && At(t, p).Some? :: prefix + Join(p) in f)
    && (forall k | k in f :: Source(t, prefix, k, f[k]))
  }

  lemma JoinStep(prefix: string, p: Path)
    requires |p| > 1
    ensures prefix + Join(p) == prefix + p[0] + "." + Join(p[1..])
  {
    Assoc(prefix, p[0], ".", Join(p[1..]));
  }

  lemma Assoc(a: string, b: string, c: string, d: string)
    ensures a + (b + c + d) == a + b + c + d
  {
  }

  lemma AddLeaf(t: Node, prefix: string, f: Flat, done: set<string>, k: string)
    requires t.Dict? && k in t.m && t.m[k].Leaf? && FlatSoFar(t, prefix, f, done)
    ensures FlatSoFar(t, prefix, f[prefix + k := t.m[k].v], done + {k})
  {
    assert Join([k]) == k && At(t, [k]) == Some(t.m[k].v);
    assert Source(t, prefix, prefix + k, t.m[k].v);
    forall p | p != [] && p[0] in done + {k} && At(t, p).Some?
      ensures prefix + Join(p) in f[prefix + k := t.m[k].v]
    {
      if p[0] == k {
        assert At(t.m[k], p[1..]).Some?;
        assert p == [k] + p[1..];
      }
    }
  }

  lemma AddDict(t: Node, prefix: string, f: Flat, done: set<string>, k: string, sub: Flat)
    requires t.Dict? && k in t.m && t.m[k].Dict?
    requires FlatSoFar(t, prefix, f, done) && FlatOf(t.m[k], prefix + k + ".", sub)
    ensures FlatSoFar(t, prefix, f + sub, done + {k})
  {
    forall p | p != [] && p[0] in done + {k} && At(t, p).Some?
      ensures prefix + Join(p) in f + sub
    {
      if p[0] == k {
        assert At(t, p) == At(t.m[k], p[1..]) && p[1..] != [] && |p[1..]| == |p| - 1;
        JoinStep(prefix, p);
      }
    }
    forall j | j in sub
      ensures Source(t, prefix, j, sub[j])
    {
      assert Source(t.m[k], prefix + k + ".", j, sub[j]);
      var q :| q != [] && At(t.m[k], q) == Some(sub[j]) && j == prefix + k + "." + Join(q);
      var p := [k] + q;
      assert p[1..] == q;
      JoinStep(prefix, p);
    }
  }

  lemma {:induction false} PlainPaths(t: Node, p: Path)
    requires PlainTree(t) && At(t, p).Some? && p != []
    ensures Plain(p)
    decreases |p|
  {
    if |p| > 1 {
      PlainPaths(t.m[p[0]], p[1..]);
      assert forall i | 1 <= i < |p| :: p[i] == p[1..][i - 1];
    }
  }

  /** Where no name holds a dot, no two scalars have the same dotted name. */
  lemma PlainFlat(t: Node, prefix: string, f: Flat)
    requires PlainTree(t) && FlatOf(t, prefix, f)
    ensures Flattens(t, prefix, f)
  {
    forall p | Plain(p) && At(t, p).Some?
      ensures Entry(f, prefix + Join(p), At(t, p).value)
    {
      var k := prefix + Join(p);
      assert Source(t, prefix, k, f[k]);
      var q :| q != [] && At(t, q) == Some(f[k]) && k == prefix + Join(q);
      PlainPaths(t, q);
      JoinInjective(prefix, p, q);
    }
    forall k | k in f
      ensures Under(t, prefix, k)
    {
      assert Source(t, prefix, k, f[k]);
      var q :| q != [] && At(t, q) == Some(f[k]) && k == prefix + Join(q);
      PlainPaths(t, q);
    }
  }

  method Flatten(t: Node, prefix: string) returns (out: Flat)
    requires t.Dict?
    ensures FlatOf(t, prefix, out)
    ensures PlainTree(t) ==> Flattens(t, prefix, out)
    decreases t
  {
    out := map[];
    var todo := t.m.Keys;
    while todo != {}
      invariant todo <= t.m.Keys && FlatSoFar(t, prefix, out, t.m.Keys - todo)
      decreases todo
    {
      var k :| k in todo;
      ghost var before, done := out, t.m.Keys - todo;
      if t.m[k].Leaf? {
        out := out[prefix + k := t.m[k].v];
        AddLeaf(t, prefix, before, done, k);
      } else {
        var sub := Flatten(t.m[k], prefix + k + ".");
        out := out + sub;
        AddDict(t, prefix, before, done, k, sub);
      }
      assert t.m.Keys - (todo - {k}) == done + {k};
      todo := todo - {k};
    }
    assert FlatOf(t, prefix, out);
    if PlainTree(t) {
      PlainFlat(t, prefix, out);
    }
  }

  // ----- from_dict

  /** The defaults fill every known key, and satisfy every bound and rule. */
  ghost predicate Sound(rules: seq<Rule>, specs: map<string, Spec>, defaults: Node, base: Flat) {
    && defaults.Dict? && PlainTree(defaults) && Flattens(defaults, "", base)
    && "schema" !in specs && "governor.hard_max_w" !in specs && base.Keys == specs.Keys + {"schema"}
    && base["schema"] == Num(1.0) && Clean(rules, base) && Bounded(specs, base)
  }

  /** A full configuration that satisfies every bound and rule. */
  ghost predicate Good(rules: seq<Rule>, specs: map<string, Spec>, base: Flat, f: Flat)
    requires "schema" in base
  {
    f.Keys == base.Keys && f["schema"] == base["schema"] && Clean(rules, f) && Bounded(specs, f)
  }

  lemma GoodIsChecked(rules: seq<Rule>, specs: map<string, Spec>, defaults: Node, base: Flat, f: Flat)
    requires Sound(rules, specs, defaults, base) && Good(rules, specs, base, f)
    ensures PassingUpdates(specs, f) == f - {"schema"} && base + (f - {"schema"}) == f
  {
    forall k | k in f && k != "schema"
      ensures CheckOne(specs, k, f[k]) == Ok(f[k])
    {
      assert k in specs && Admits(specs[k], f[k]);
      KeysChecked(specs, k, f[k]);
    }
    PassingAre(specs, f);
    SchemaBack(base, f);
  }

  lemma PassingAre(specs: map<string, Spec>, f: Flat)
    requires forall k | k in f && k != "schema" :: CheckOne(specs, k, f[k]) == Ok(f[k])
    ensures PassingUpdates(specs, f) == f - {"schema"}
  {
  }

  lemma SchemaBack(base: Flat, f: Flat)
    requires f.Keys == base.Keys && "schema" in f && f["schema"] == base["schema"]
    ensures base + (f - {"schema"}) == f
  {
  }

  /** A scalar has nothing below it. */
  lemma {:induction false} ScalarsApart(t: Node, p: Path, q: Path)
    requires At(t, p).Some? && At(t, q).Some? && p <= q
    ensures p == q
    decreases |p|
  {
    if p != [] {
      assert p == [p[0]] + p[1..] && q == [q[0]] + q[1..] && p[1..] <= q[1..];
      ScalarsApart(t.m[p[0]], p[1..], q[1..]);
    }
  }

  lemma PresentKey(t: Node, base: Flat, k: string)
    requires Flattens(t, "", base) && k in base
    ensures At(t, Split(k)).Some?
  {
    assert Under(t, "", k);
    var p :| Plain(p) && At(t, p).Some? && k == "" + Join(p);
    assert k == Join(p);
    SplitJoin(p);
  }

  /** No present key runs through another one. */
  lemma PresentApart(t: Node, base: Flat, j: string, k: string)
    requires Flattens(t, "", base) && j in base && k in base
    ensures !(j + "." <= k)
  {
    PresentKey(t, base, j);
    PresentKey(t, base, k);
    SplitKey(j);
    SplitKey(k);
    KeyBelow(Split(j), Split(k));
    if Split(j) <= Split(k) {
      ScalarsApart(t, Split(j), Split(k));
    }
  }

  /** Updates of present keys can be applied in any order, and replace no section. */
  lemma PresentOverride(t: Node, base: Flat, us: seq<Update>)
    requires Flattens(t, "", base) && Distinct(us) && MapOf(us).Keys <= base.Keys
    ensures InOrder(base, us) == Some(base + MapOf(us))
  {
    forall j, k | j in base && k in base
      ensures !(j + "." <= k)
    {
      PresentApart(t, base, j, k);
    }
    OrderIsFree(base, us);
    assert Overridden(base, MapOf(us)) == base + MapOf(us);
  }

  /** `k` is rejected: its own value is bad, or some pass of `validate` reports it. */
  ghost predicate Rejects(rules: seq<Rule>, specs: map<string, Spec>, base: Flat, updates: Flat, k: string)
    requires Readable(rules, base)
  {
    || (k in updates && CheckOne(specs, k, updates[k]).Bad?)
    || Blamed(rules, base, PassingUpdates(specs, updates), k)
  }

  /** The checked updates are known keys, and the defaults overridden by them are a good configuration; if the updates
      are one themselves, it is that one. */
  method CheckAgainst(rules: seq<Rule>, specs: map<string, Spec>, updates: Flat, defaults: Node, base: Flat)
    returns (accepted: Flat, rejected: map<string, string>)
    requires Sound(rules, specs, defaults, base)
    ensures accepted.Keys <= specs.Keys && Good(rules, specs, base, base + accepted)
    ensures Good(rules, specs, base, updates) ==> base + accepted == updates
    ensures accepted == Survivors(rules, base, PassingUpdates(specs, updates))
    ensures forall k :: k in rejected <==> Rejects(rules, specs, base, updates, k)
    ensures Clean(rules, base + PassingUpdates(specs, updates)) ==> accepted == PassingUpdates(specs, updates)
  {
    ghost var starts;
    accepted, rejected, starts := Validate(rules, specs, updates, base);
    AcceptedIsGood(rules, specs, defaults, base, updates, accepted);
  }

  lemma AcceptedIsGood(
    rules: seq<Rule>, specs: map<string, Spec>, defaults: Node, base: Flat, updates: Flat, accepted: Flat)
    requires Sound(rules, specs, defaults, base) && Part(accepted, PassingUpdates(specs, updates))
    requires Clean(rules, base + accepted) && Bounded(specs, base + accepted)
    requires Clean(rules, base + PassingUpdates(specs, updates)) ==> accepted == PassingUpdates(specs, updates)
    ensures accepted.Keys <= specs.Keys && Good(rules, specs, base, base + accepted)
    ensures Good(rules, specs, base, updates) ==> base + accepted == updates
  {
    assert accepted.Keys <= specs.Keys;
    if Good(rules, specs, base, updates) {
      GoodIsChecked(rules, specs, defaults, base, updates);
    }
  }

  /** Whatever the file holds, the configuration built from it is a good one: the defaults overridden by what `validate`
      accepts of the flat form of the file, with every other known key at its default. A file whose values pass their
      own checks and together satisfy the rules is taken over whole, and a good configuration is reloaded as it is, so
      loading what was built changes nothing. */
  method FromDict(rules: seq<Rule>, specs: map<string, Spec>, raw: Node, defaults: Node, ghost base: Flat)
    returns (cfg: Node, rejected: map<string, string>, ghost given: Flat, ghost flat: Flat)
    requires Sound(rules, specs, defaults, base)
    ensures Flattens(cfg, "", flat) && PlainTree(cfg) && Good(rules, specs, base, flat)
    ensures !raw.Dict? ==> cfg == defaults && flat == base && rejected.Keys == {"<file>"}
    ensures raw.Dict? ==> FlatOf(raw, "", given) && (PlainTree(raw) ==> Flattens(raw, "", given))
    ensures raw.Dict? ==> flat == base + Survivors(rules, base, PassingUpdates(specs, given))
    ensures raw.Dict? ==> forall k :: k in rejected <==> Rejects(rules, specs, base, given, k)
    ensures raw.Dict? && Clean(rules, base + PassingUpdates(specs, given)) ==>
              flat == base + PassingUpdates(specs, given)
    ensures raw.Dict? && Good(rules, specs, base, given) ==> flat == given
  {
    if raw.Leaf? {
      return defaults, map["<file>" := "top level must be an object"], map[], base;
    }
    var updates := Flatten(raw, "");
    given := updates;
    var shipped := Flatten(defaults, "");
    FlatIsUnique(defaults, base, shipped);
    var accepted;
    accepted, rejected := CheckAgainst(rules, specs, updates, defaults, shipped);
    var items := Items(accepted);
    PresentOverride(defaults, base, items);
    var applied := ApplyUpdates(defaults, items);
    cfg := applied.value;
    flat := base + accepted;
  }
}
