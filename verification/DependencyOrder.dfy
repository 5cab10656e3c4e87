// The order in which the overlay manager activates overlays
// (pkgs/fort-overlay-manager/main.go, orderedOverlays): a depth-first walk over
// the declared dependencies that tolerates cycles.
module DependencyOrder {
  import opened Strings

  /** Overlay name -> its declared dependencies (some may not be declared on this host). */
  type Graph = map<string, seq<string>>

  /** The two variables the walk updates; a name absent from `state` is unvisited (0). */
  datatype Walk = Walk(state: map<string, int>, order: seq<string>)

  const VISITING := 1
  const DONE := 2

  function Level(w: Walk, name: string): int {
    if name in w.state then w.state[name] else 0
  }

  function Touched(w: Walk): set<string> {
    set n | n in w.state && (w.state[n] == VISITING || w.state[n] == DONE)
  }

  ghost predicate Unfinished(w: Walk, name: string) {
    Level(w, name) == VISITING
  }

  /** What one call of the source's recursive closure does to the walk. */
  function Visited(g: Graph, w: Walk, name: string): (r: Walk)
    requires name in g
    ensures Touched(w) <= Touched(r)
    decreases g.Keys - Touched(w), 0
  {
    if Level(w, name) == VISITING || Level(w, name) == DONE then w
    else
      var w1 := w.(state := w.state[name := VISITING]);
      assert name in g.Keys - Touched(w) && name in Touched(w1);
      var w2 := VisitedAll(g, w1, Sort(g[name]));
      var r := Walk(w2.state[name := DONE], w2.order + [name]);
      assert forall n :: n in Touched(w1) ==> n in Touched(w2) && n in Touched(r);
      r
  }

  function VisitedAll(g: Graph, w: Walk, deps: seq<string>): (r: Walk)
    ensures Touched(w) <= Touched(r)
    decreases g.Keys - Touched(w), |deps|
  {
    if deps == [] then w
    else
      var w1 := if deps[0] in g then Visited(g, w, deps[0]) else w;
      VisitedAll(g, w1, deps[1..])
  }

  /** The order the source returns, as a function of the configuration. */
  ghost function Ordered(g: Graph): seq<string> {
    VisitedAll(g, Walk(map[], []), SortedNames(g.Keys)).order
  }

  /** The source's closure and the two variables it captures. */
  class Walker {
    const overlays: Graph
    var state: map<string, int>
    var order: seq<string>

    ghost function Contents(): Walk
      reads this
    {
      Walk(state, order)
    }

    constructor (overlays: Graph)
      ensures this.overlays == overlays && Contents() == Walk(map[], [])
    {
      this.overlays := overlays;
      state, order := map[], [];
    }

    method Visit(name: string)
      requires name in overlays
      modifies this
      ensures Contents() == Visited(overlays, old(Contents()), name)
      decreases overlays.Keys - Touched(Contents()), 0
    {
      var level := if name in state then state[name] else 0;
      if level == VISITING || level == DONE {
        return;
      }
      ghost var w0 := Contents();
      state := state[name := VISITING];
      ghost var w1 := Contents();
      assert name in overlays.Keys - Touched(w0) && name in Touched(w1);
      assert Touched(w0) <= Touched(w1);
      VisitAll(Sort(overlays[name]));
      state := state[name := DONE];
      order := order + [name];
    }

    /** Both of the source's loops: over sorted dependencies, and over all names. */
    method VisitAll(names: seq<string>)
      modifies this
      ensures Contents() == VisitedAll(overlays, old(Contents()), names)
      decreases overlays.Keys - Touched(Contents()), |names|
    {
      ghost var w0 := Contents();
      var i := 0;
      while i < |names|
        invariant 0 <= i <= |names|
        invariant Touched(w0) <= Touched(Contents())
        invariant VisitedAll(overlays, w0, names) == VisitedAll(overlays, Contents(), names[i..])
      {
        if names[i] in overlays {
          Visit(names[i]);
        }
        assert names[i..][1..] == names[i + 1..];
        i := i + 1;
      }
    }
  }

  /** Collects the map's keys in whatever order the map yields them, then sorts them. */
  method CollectNames(overlays: Graph) returns (names: seq<string>)
    ensures names == SortedNames(overlays.Keys)
  {
    var rest := overlays.Keys;
    names := [];
    while rest != {}
      invariant rest <= overlays.Keys
      invariant Elements(names) == overlays.Keys - rest && Distinct(names)
    {
      var name :| name in rest;
      assert name !in Elements(names);
      assert Elements(names + [name]) == Elements(names) + {name};
      names, rest := names + [name], rest - {name};
    }
    SortSorts(names);
    SortDistinct(names);
    names := Sort(names);
    SortedDistinctIsStrict(names);
    StrictlySortedUnique(names, SortedNames(overlays.Keys));
  }

  method OrderedOverlays(overlays: Graph) returns (order: seq<string>)
    ensures order == Ordered(overlays)
  {
    var names := CollectNames(overlays);
    var walker := new Walker(overlays);
    walker.VisitAll(names);
    order := walker.order;
  }

  // ---- What the order guarantees ----

  /** `b` can be reached from `a` by following declared dependencies (zero or more). */
  ghost predicate Path(g: Graph, p: seq<string>, a: string, b: string) {
    && p != [] && p[0] == a && p[|p| - 1] == b
    && (forall i :: 0 <= i < |p| ==> p[i] in g)
    && (forall i :: 0 <= i < |p| - 1 ==> p[i + 1] in g[p[i]])
  }

  ghost predicate Reaches(g: Graph, a: string, b: string) {
    exists p :: Path(g, p, a, b)
  }

  lemma ReachesSelf(g: Graph, a: string)
    requires a in g
    ensures Reaches(g, a, a)
  {
    assert Path(g, [a], a, a);
  }

  lemma ReachesStep(g: Graph, a: string, b: string, c: string)
    requires Reaches(g, a, b) && c in g[b] && c in g
    ensures Reaches(g, a, c)
  {
    var p :| Path(g, p, a, b);
    var q := p + [c];
    assert Path(g, q, a, c);
  }

  ghost predicate Before(order: seq<string>, i: nat, d: string) {
    i <= |order| && d in order[..i]
  }

  /** Every dependency of a listed overlay is listed earlier, or lies on a cycle through it. */
  ghost predicate DepsSettled(g: Graph, order: seq<string>) {
    forall i, d :: 0 <= i < |order| && order[i] in g && d in g && d in g[order[i]] ==>
      Before(order, i, d) || Reaches(g, d, order[i])
  }

  /** Invariant of the walk, between any two of its steps. */
  ghost predicate Inv(g: Graph, w: Walk) {
    && Touched(w) <= g.Keys
    && Distinct(w.order)
    && (forall n :: n in w.order <==> Level(w, n) == DONE)
    && DepsSettled(g, w.order)
  }

  lemma DepsSettledExtend(g: Graph, order: seq<string>, name: string)
    requires DepsSettled(g, order)
    requires name in g
    requires forall d :: d in g && d in g[name] ==> d in order || Reaches(g, d, name)
    ensures DepsSettled(g, order + [name])
  {
    var r := order + [name];
    forall i, d | 0 <= i < |r| && r[i] in g && d in g && d in g[r[i]]
      ensures Before(r, i, d) || Reaches(g, d, r[i])
    {
      if i < |order| {
        assert r[..i] == order[..i];
        assert Before(order, i, d) || Reaches(g, d, order[i]);
      } else {
        assert r[..i] == order;
      }
    }
  }

  /** What a call of the closure keeps and adds, from any intermediate state whose
      unfinished overlays all lead to the visited one. */
  lemma {:induction false} VisitInv(g: Graph, w: Walk, name: string)
    requires name in g && Inv(g, w)
    requires forall v :: Unfinished(w, v) ==> Reaches(g, v, name)
    ensures var r := Visited(g, w, name);
      && Inv(g, r)
      && (forall v :: Unfinished(r, v) <==> Unfinished(w, v))
      && w.order <= r.order
      && (name in r.order || Unfinished(w, name))
    decreases g.Keys - Touched(w), 0
  {
    if Level(w, name) != VISITING && Level(w, name) != DONE {
      var w1 := w.(state := w.state[name := VISITING]);
      assert name in g.Keys - Touched(w) && name in Touched(w1);
      assert Touched(w) <= Touched(w1);
      BeginInv(g, w, name);
      ReachesSelf(g, name);
      var deps := Sort(g[name]);
      SortSorts(g[name]);
      assert forall d :: d in deps <==> d in Elements(deps);
      VisitAllInv(g, w1, name, deps);
      var w2 := VisitedAll(g, w1, deps);
      assert forall d :: d in g[name] <==> d in Elements(g[name]);
      assert forall v :: Unfinished(w2, v) <==> v == name || Unfinished(w, v);
      FinishInv(g, w2, name);
    }
  }

  lemma BeginInv(g: Graph, w: Walk, name: string)
    requires name in g && Inv(g, w) && Level(w, name) != VISITING && Level(w, name) != DONE
    ensures var w1 := w.(state := w.state[name := VISITING]);
      Inv(g, w1) && forall v :: Unfinished(w1, v) <==> v == name || Unfinished(w, v)
  {
  }

  lemma FinishInv(g: Graph, w: Walk, name: string)
    requires name in g && Inv(g, w) && Unfinished(w, name)
    requires forall d :: d in g && d in g[name] ==> d in w.order || Reaches(g, d, name)
    ensures var r := Walk(w.state[name := DONE], w.order + [name]);
      && Inv(g, r) && name in r.order
      && forall v :: Unfinished(r, v) <==> v != name && Unfinished(w, v)
  {
    DepsSettledExtend(g, w.order, name);
    assert name !in w.order;
    var r := Walk(w.state[name := DONE], w.order + [name]);
    forall n ensures n in r.order <==> Level(r, n) == DONE {
      assert n in r.order <==> n in w.order || n == name;
    }
  }

  lemma {:induction false} VisitAllInv(g: Graph, w: Walk, from: string, deps: seq<string>)
    requires from in g && Inv(g, w)
    requires forall d :: d in deps ==> d in g[from]
    requires forall v :: Unfinished(w, v) ==> Reaches(g, v, from)
    ensures var r := VisitedAll(g, w, deps);
      && Inv(g, r)
      && (forall v :: Unfinished(r, v) <==> Unfinished(w, v))
      && w.order <= r.order
      && (forall d :: d in deps && d in g ==> d in r.order || Unfinished(w, d))
    decreases g.Keys - Touched(w), |deps|
  {
    if deps != [] {
      var w1 := w;
      if deps[0] in g {
        forall v | Unfinished(w, v) ensures Reaches(g, v, deps[0]) {
          ReachesStep(g, v, from, deps[0]);
        }
        VisitInv(g, w, deps[0]);
        w1 := Visited(g, w, deps[0]);
      }
      VisitAllInv(g, w1, from, deps[1..]);
      assert forall d :: d in deps ==> d == deps[0] || d in deps[1..];
    }
  }

  /** The top-level loop starts each visit with nothing unfinished. */
  lemma {:induction false} TopLevelInv(g: Graph, w: Walk, names: seq<string>)
    requires Inv(g, w) && (forall v :: !Unfinished(w, v))
    requires forall n :: n in names ==> n in g
    ensures var r := VisitedAll(g, w, names);
      && Inv(g, r) && w.order <= r.order
      && (forall n :: n in names ==> n in r.order)
    decreases |names|
  {
    if names != [] {
      VisitInv(g, w, names[0]);
      TopLevelInv(g, Visited(g, w, names[0]), names[1..]);
      assert forall n :: n in names ==> n == names[0] || n in names[1..];
    }
  }

  /** Main result: for every configuration, cyclic or not, each overlay is listed exactly
      once, and a dependency is listed at or after its dependent only if the edge between
      them lies on a cycle. */
  lemma OrderedCorrect(g: Graph)
    ensures Distinct(Ordered(g)) && Elements(Ordered(g)) == g.Keys
    ensures |Ordered(g)| == |g|
    ensures forall i, j :: 0 <= i <= j < |Ordered(g)| && Ordered(g)[j] in g[Ordered(g)[i]] ==>
                             Reaches(g, Ordered(g)[j], Ordered(g)[i])
  {
    var order := Ordered(g);
    OrderedSettled(g);
    assert Elements(order) == g.Keys;
    DistinctSize(order);
    assert |g| == |g.Keys|;
    forall i, j | 0 <= i <= j < |order| && order[j] in g[order[i]]
      ensures Reaches(g, order[j], order[i])
    {
      assert Before(order, i, order[j]) || Reaches(g, order[j], order[i]);
    }
  }

  lemma OrderedSettled(g: Graph)
    ensures Distinct(Ordered(g)) && DepsSettled(g, Ordered(g))
    ensures forall n :: n in Ordered(g) <==> n in g
  {
    var w0, names := Walk(map[], []), SortedNames(g.Keys);
    assert forall n :: n in names <==> n in Elements(names);
    TopLevelInv(g, w0, names);
    var w := VisitedAll(g, w0, names);
    assert forall n :: n in w.order ==> n in Touched(w);
  }

  lemma {:induction false} DistinctSize(s: seq<string>)
    requires Distinct(s)
    ensures |Elements(s)| == |s|
  {
    if s != [] {
      DistinctSize(s[1..]);
      assert Elements(s) == {s[0]} + Elements(s[1..]);
    }
  }

  /** No declared dependency leads back to the overlay that declares it. */
  ghost predicate Acyclic(g: Graph) {
    forall u, d :: u in g && d in g && d in g[u] ==> !Reaches(g, d, u)
  }

  /** Every declared dependency is listed before the overlay that declares it. */
  ghost predicate DependenciesFirst(g: Graph, order: seq<string>) {
    forall i, d :: 0 <= i < |order| && order[i] in g && d in g && d in g[order[i]] ==> Before(order, i, d)
  }

  /** The order is fully respected exactly on the acyclic configurations. */
  lemma DependenciesFirstIffAcyclic(g: Graph)
    ensures DependenciesFirst(g, Ordered(g)) <==> Acyclic(g)
  {
    var order := Ordered(g);
    OrderedCorrect(g);
    if Acyclic(g) {
      forall i, d | 0 <= i < |order| && order[i] in g && d in g && d in g[order[i]]
        ensures Before(order, i, d)
      {
        assert d in Elements(order);
        var j :| 0 <= j < |order| && order[j] == d;
        if j < i {
          assert order[..i][j] == d;
        }
      }
    }
    if DependenciesFirst(g, order) {
      forall u, d | u in g && d in g && d in g[u] ensures !Reaches(g, d, u) {
        EdgeNotOnCycle(g, order, u, d);
      }
    }
  }

  lemma EdgeNotOnCycle(g: Graph, order: seq<string>, u: string, d: string)
    requires DependenciesFirst(g, order) && Distinct(order) && Elements(order) == g.Keys
    requires u in g && d in g && d in g[u]
    ensures !Reaches(g, d, u)
  {
    if Reaches(g, d, u) {
      var p :| Path(g, p, d, u);
      assert u in Elements(order);
      var i :| 0 <= i < |order| && order[i] == u;
      assert Before(order, i, d);
      var j :| 0 <= j < i && order[..i][j] == d;
      PathDescends(g, order, p, d, u, j);
    }
  }

  lemma {:induction false} PathDescends(g: Graph, order: seq<string>, p: seq<string>, a: string, b: string, j: nat)
    requires DependenciesFirst(g, order) && Distinct(order)
    requires Path(g, p, a, b) && j < |order| && order[j] == a
    ensures b in order[..j + 1]
    decreases |p|
  {
    if |p| == 1 {
      assert order[..j + 1][j] == a;
    } else {
      assert Before(order, j, p[1]);
      var k :| 0 <= k < j && order[..j][k] == p[1];
      assert Path(g, p[1..], p[1], b);
      PathDescends(g, order, p[1..], p[1], b, k);
      var m :| 0 <= m < k + 1 && order[..k + 1][m] == b;
      assert order[..j + 1][m] == b;
    }
  }

  // ---- Only the set of declared dependencies matters ----

  function DeclaredDeps(g: Graph, name: string): set<string>
    requires name in g
  {
    set d | d in g[name] && d in g
  }

  /** The same overlays, each with the same set of dependencies declared on this host. */
  ghost predicate SameDeps(g: Graph, h: Graph) {
    g.Keys == h.Keys && forall n :: n in g ==> DeclaredDeps(g, n) == DeclaredDeps(h, n)
  }

  /** A sorted list without the undeclared names and without repetitions. */
  function Distilled(g: Graph, s: seq<string>): (r: seq<string>) {
    if s == [] then []
    else
      var rest := Distilled(g, s[1..]);
      if s[0] !in g || s[0] in s[1..] then rest else [s[0]] + rest
  }

  lemma {:induction false} DistilledIsStrict(g: Graph, s: seq<string>)
    requires Sorted(s)
    ensures StrictlySorted(Distilled(g, s))
    ensures Elements(Distilled(g, s)) == set d | d in s && d in g
  {
    if s != [] {
      DistilledIsStrict(g, s[1..]);
      var rest := Distilled(g, s[1..]);
      assert forall d :: d in rest <==> d in Elements(rest);
      assert forall d :: d in s <==> d == s[0] || d in s[1..];
      if !(s[0] !in g || s[0] in s[1..]) {
        forall j | 0 <= j < |rest| ensures Less(s[0], rest[j]) {
          assert rest[j] in Elements(rest);
          var k :| 0 <= k < |s[1..]| && s[1..][k] == rest[j];
          assert s[k + 1] == rest[j];
          LessTotal(s[0], rest[j]);
        }
      }
    }
  }

  /** A visited name stays visited, so visiting it again changes nothing. */
  lemma VisitTouches(g: Graph, w: Walk, name: string)
    requires name in g
    ensures name in Touched(Visited(g, w, name))
  {
  }

  lemma {:induction false} VisitAllDistilled(g: Graph, w: Walk, s: seq<string>)
    requires Sorted(s)
    ensures VisitedAll(g, w, s) == VisitedAll(g, w, Distilled(g, s))
    decreases |s|
  {
    if s != [] {
      var rest := Distilled(g, s[1..]);
      if s[0] !in g {
        VisitAllDistilled(g, w, s[1..]);
      } else if s[0] in s[1..] {
        // Equal names are adjacent in a sorted list.
        var j :| 0 <= j < |s[1..]| && s[1..][j] == s[0];
        LessTotal(s[0], s[1]);
        assert s[1] == s[0] by {
          assert j == 0 || !Less(s[j + 1], s[1]);
        }
        var w1 := Visited(g, w, s[0]);
        VisitTouches(g, w, s[0]);
        assert Visited(g, w1, s[1]) == w1;
        assert VisitedAll(g, w, s[1..]) == VisitedAll(g, w1, s[1..][1..]);
        assert VisitedAll(g, w1, s[1..]) == VisitedAll(g, w1, s[1..][1..]);
        VisitAllDistilled(g, w, s[1..]);
      } else {
        VisitAllDistilled(g, Visited(g, w, s[0]), s[1..]);
        assert ([s[0]] + rest)[1..] == rest;
      }
    }
  }

  lemma DistilledAgree(g: Graph, h: Graph, name: string)
    requires SameDeps(g, h) && name in g
    ensures Distilled(g, Sort(g[name])) == Distilled(h, Sort(h[name]))
  {
    var s, t := Sort(g[name]), Sort(h[name]);
    SortSorts(g[name]);
    SortSorts(h[name]);
    DistilledIsStrict(g, s);
    DistilledIsStrict(h, t);
    assert forall d :: d in s <==> d in Elements(s);
    assert forall d :: d in t <==> d in Elements(t);
    assert Elements(Distilled(g, s)) == DeclaredDeps(g, name);
    assert Elements(Distilled(h, t)) == DeclaredDeps(h, name);
    StrictlySortedUnique(Distilled(g, s), Distilled(h, t));
  }

  lemma {:induction false} VisitAgree(g: Graph, h: Graph, w: Walk, name: string)
    requires SameDeps(g, h) && name in g
    ensures Visited(g, w, name) == Visited(h, w, name)
    decreases g.Keys - Touched(w), 0
  {
    if Level(w, name) != VISITING && Level(w, name) != DONE {
      var w1 := w.(state := w.state[name := VISITING]);
      assert name in g.Keys - Touched(w) && name in Touched(w1);
      assert Touched(w) <= Touched(w1);
      var s, t := Sort(g[name]), Sort(h[name]);
      SortSorts(g[name]);
      SortSorts(h[name]);
      DistilledAgree(g, h, name);
      VisitAllDistilled(g, w1, s);
      VisitAllDistilled(h, w1, t);
      VisitAllAgree(g, h, w1, Distilled(g, s));
    }
  }

  lemma {:induction false} VisitAllAgree(g: Graph, h: Graph, w: Walk, deps: seq<string>)
    requires SameDeps(g, h)
    ensures VisitedAll(g, w, deps) == VisitedAll(h, w, deps)
    decreases g.Keys - Touched(w), |deps|
  {
    if deps != [] {
      if deps[0] in g {
        VisitAgree(g, h, w, deps[0]);
        VisitAllAgree(g, h, Visited(g, w, deps[0]), deps[1..]);
      } else {
        VisitAllAgree(g, h, w, deps[1..]);
      }
    }
  }

  /** Permuting or repeating dependencies, or naming overlays this host does not declare,
      never changes the order. */
  lemma OrderIgnoresListing(g: Graph, h: Graph)
    requires SameDeps(g, h)
    ensures Ordered(g) == Ordered(h)
  {
    VisitAllAgree(g, h, Walk(map[], []), SortedNames(g.Keys));
  }

  /** Ties are broken by name: without declared dependencies the order is alphabetical. */
  lemma IndependentOverlaysAlphabetical(g: Graph)
    requires forall n :: n in g ==> DeclaredDeps(g, n) == {}
    ensures Ordered(g) == SortedNames(g.Keys)
  {
    var names := SortedNames(g.Keys);
    assert forall n :: n in names ==> n in Elements(names);
    AppendsAll(g, Walk(map[], []), names);
  }

  lemma {:induction false} AppendsAll(g: Graph, w: Walk, names: seq<string>)
    requires forall n :: n in g ==> DeclaredDeps(g, n) == {}
    requires Distinct(names) && forall n :: n in names ==> n in g && Level(w, n) == 0
    ensures VisitedAll(g, w, names).order == w.order + names
    decreases |names|
  {
    if names != [] {
      var name, rest := names[0], names[1..];
      AppendsOne(g, w, name);
      forall n | n in rest ensures n in g && n != name {
        var i :| 0 <= i < |rest| && rest[i] == n;
        assert n == names[i + 1];
      }
      AppendsAll(g, Visited(g, w, name), rest);
      AppendAgain(w.order, name, rest);
      assert [name] + rest == names;
    }
  }

  lemma AppendAgain(order: seq<string>, name: string, rest: seq<string>)
    ensures order + [name] + rest == order + ([name] + rest)
  {
  }

  lemma AppendsOne(g: Graph, w: Walk, name: string)
    requires name in g && DeclaredDeps(g, name) == {} && Level(w, name) == 0
    ensures var r := Visited(g, w, name);
      && r.order == w.order + [name] && Level(r, name) == DONE
      && forall n :: n != name ==> Level(r, n) == Level(w, n)
  {
    var w1 := w.(state := w.state[name := VISITING]);
    SortSorts(g[name]);
    assert forall d :: d in Sort(g[name]) ==> d in Elements(Sort(g[name]));
    assert forall d :: d in g[name] && d in g ==> d in DeclaredDeps(g, name);
    SkipsUndeclared(g, w1, Sort(g[name]));
    assert Visited(g, w, name) == Walk(w1.state[name := DONE], w.order + [name]);
  }

  lemma {:induction false} SkipsUndeclared(g: Graph, w: Walk, deps: seq<string>)
    requires forall d :: d in deps ==> d !in g
    ensures VisitedAll(g, w, deps) == w
    decreases |deps|
  {
    if deps != [] {
      SkipsUndeclared(g, w, deps[1..]);
    }
  }

  // ---- Ties among dependencies ----

  /** Whoever depends on `e` also depends on `d`, which depends on nothing and comes first by name. */
  ghost predicate FirstOfTwo(g: Graph, d: string, e: string) {
    && d in g && e in g && Less(d, e) && DeclaredDeps(g, d) == {}
    && forall u :: u in g && e in g[u] ==> d in g[u]
  }

  /** `d` is not being visited, it is listed before `e` is begun, and before `e` in the list. */
  ghost predicate Ahead(w: Walk, d: string, e: string) {
    && (Level(w, e) == VISITING || Level(w, e) == DONE ==> d in w.order)
    && (Level(w, d) == 0 || (Level(w, d) == DONE && d in w.order))
    && forall j :: 0 <= j < |w.order| && w.order[j] == e ==> d in w.order[..j]
  }

  /** In this list `e` is preceded by `d`, unless the walk has listed `d` already. */
  ghost predicate DoneFirst(deps: seq<string>, w: Walk, d: string, e: string) {
    forall i :: 0 <= i < |deps| && deps[i] == e ==> d in w.order || d in deps[..i]
  }

  lemma {:induction false} Grows(g: Graph, w: Walk, name: string)
    requires name in g
    ensures w.order <= Visited(g, w, name).order
    decreases g.Keys - Touched(w), 0
  {
    if Level(w, name) != VISITING && Level(w, name) != DONE {
      var w1 := w.(state := w.state[name := VISITING]);
      assert name in g.Keys - Touched(w) && name in Touched(w1) && Touched(w) <= Touched(w1);
      GrowsAll(g, w1, Sort(g[name]));
    }
  }

  lemma {:induction false} GrowsAll(g: Graph, w: Walk, deps: seq<string>)
    ensures w.order <= VisitedAll(g, w, deps).order
    decreases g.Keys - Touched(w), |deps|
  {
    if deps != [] {
      if deps[0] in g {
        Grows(g, w, deps[0]);
      }
      GrowsAll(g, if deps[0] in g then Visited(g, w, deps[0]) else w, deps[1..]);
    }
  }

  lemma SortedBefore(s: seq<string>, d: string, e: string)
    requires Sorted(s) && Less(d, e) && (e in s ==> d in s)
    ensures forall i :: 0 <= i < |s| && s[i] == e ==> d in s[..i]
  {
    forall i | 0 <= i < |s| && s[i] == e ensures d in s[..i] {
      var j :| 0 <= j < |s| && s[j] == d;
      LessIrreflexive(d);
      assert j < i;
      assert s[..i][j] == d;
    }
  }

  lemma DoneFirstRest(deps: seq<string>, w: Walk, w1: Walk, d: string, e: string)
    requires deps != [] && DoneFirst(deps, w, d, e) && w.order <= w1.order && (deps[0] == d ==> d in w1.order)
    ensures DoneFirst(deps[1..], w1, d, e)
  {
    var rest := deps[1..];
    forall i | 0 <= i < |rest| && rest[i] == e ensures d in w1.order || d in rest[..i] {
      assert deps[i + 1] == e;
      if d in deps[..i + 1] {
        var j :| 0 <= j <= i && deps[j] == d;
        assert j > 0 ==> rest[..i][j - 1] == d;
      }
    }
  }

  lemma LeafAhead(g: Graph, w: Walk, d: string, e: string)
    requires FirstOfTwo(g, d, e) && Ahead(w, d, e)
    ensures Ahead(Visited(g, w, d), d, e) && d in Visited(g, w, d).order
  {
    LessIrreflexive(d);
    if Level(w, d) == 0 {
      AppendsOne(g, w, d);
      var r := Visited(g, w, d);
      forall j | 0 <= j < |r.order| && r.order[j] == e ensures d in r.order[..j] {
        assert r.order[..j] == w.order[..j];
      }
    }
  }

  lemma FinishedAhead(w: Walk, name: string, d: string, e: string)
    requires Ahead(w, d, e) && name != d && (name == e ==> d in w.order)
    ensures Ahead(Walk(w.state[name := DONE], w.order + [name]), d, e)
  {
    var r := w.order + [name];
    forall j | 0 <= j < |r| && r[j] == e ensures d in r[..j] {
      assert r[..j] == w.order[..j];
    }
  }

  lemma {:induction false} VisitAhead(g: Graph, w: Walk, name: string, d: string, e: string)
    requires name in g && FirstOfTwo(g, d, e) && Ahead(w, d, e) && (name == e ==> d in w.order)
    ensures Ahead(Visited(g, w, name), d, e)
    decreases g.Keys - Touched(w), 0
  {
    if name == d {
      LeafAhead(g, w, d, e);
    } else if Level(w, name) != VISITING && Level(w, name) != DONE {
      var w1 := w.(state := w.state[name := VISITING]);
      assert name in g.Keys - Touched(w) && name in Touched(w1) && Touched(w) <= Touched(w1);
      var deps := Sort(g[name]);
      SortSorts(g[name]);
      assert forall x :: x in deps <==> x in Elements(deps);
      assert forall x :: x in g[name] <==> x in Elements(g[name]);
      SortedBefore(deps, d, e);
      VisitAllAhead(g, w1, deps, d, e);
      GrowsAll(g, w1, deps);
      FinishedAhead(VisitedAll(g, w1, deps), name, d, e);
    }
  }

  lemma {:induction false} VisitAllAhead(g: Graph, w: Walk, deps: seq<string>, d: string, e: string)
    requires FirstOfTwo(g, d, e) && Ahead(w, d, e) && DoneFirst(deps, w, d, e)
    ensures Ahead(VisitedAll(g, w, deps), d, e)
    decreases g.Keys - Touched(w), |deps|
  {
    if deps != [] {
      var head, rest := deps[0], deps[1..];
      var w1 := if head in g then Visited(g, w, head) else w;
      if head in g {
        VisitAhead(g, w, head, d, e);
        Grows(g, w, head);
        if head == d {
          LeafAhead(g, w, d, e);
        }
      }
      DoneFirstRest(deps, w, w1, d, e);
      VisitAllAhead(g, w1, rest, d, e);
    }
  }

  /** Dependencies, too, are taken in alphabetical order: of two overlays the one that depends
      on nothing and comes first by name is listed first, if every overlay that depends on the
      other depends on it as well. */
  lemma SiblingsAlphabetical(g: Graph, d: string, e: string)
    requires FirstOfTwo(g, d, e)
    ensures forall j :: 0 <= j < |Ordered(g)| && Ordered(g)[j] == e ==> d in Ordered(g)[..j]
  {
    var w0, names := Walk(map[], []), SortedNames(g.Keys);
    assert d in Elements(names) && e in Elements(names);
    assert Sorted(names) by {
      forall i, j | 0 <= i < j < |names| ensures !Less(names[j], names[i]) {
        if Less(names[j], names[i]) {
          LessTransitive(names[i], names[j], names[i]);
          LessIrreflexive(names[i]);
        }
      }
    }
    SortedBefore(names, d, e);
    VisitAllAhead(g, w0, names, d, e);
  }
}
