/**
  The plugin load order: a depth-first topological sort over the manifests in priority order, with cycle and
  missing-dependency detection. Visit and VisitAll are the recursion; Resolver carries the two collections
  the source mutates, and its methods are proved to compute them.
 */
module LoadOrder {
  import opened Wrappers
  import opened Seqs

  type Name = string

  datatype Manifest = Manifest(name: Name, priority: int, dependencies: seq<Name>)

  datatype Failure = Circular(name: Name) | Missing(name: Name)

  type Graph = map<Name, Manifest>

  /** The dictionary by name: a later manifest of the same name wins. */
  function ByName(manifests: seq<Manifest>): Graph {
    if manifests == [] then map[]
    else
      var last := manifests[|manifests| - 1];
      ByName(manifests[..|manifests| - 1])[last.name := last]
  }

  function ByPriority(): Manifest -> int {
    (m: Manifest) => -m.priority
  }

  function Names(manifests: seq<Manifest>): (names: seq<Name>)
    ensures |names| == |manifests|
    ensures forall i :: 0 <= i < |manifests| ==> names[i] == manifests[i].name
  {
    seq(|manifests|, i requires 0 <= i < |manifests| => manifests[i].name)
  }

  // ----- the recursion -----

  function Visit(g: Graph, name: Name, visiting: set<Name>, resolved: seq<Name>): Result<seq<Name>, Failure>
    decreases |g.Keys - visiting|, 0
  {
    if name in resolved then Ok(resolved)
    else if name in visiting then Err(Circular(name))
    else if name !in g then Err(Missing(name))
    else
      assert g.Keys - (visiting + {name}) == (g.Keys - visiting) - {name};
      var r := VisitAll(g, g[name].dependencies, visiting + {name}, resolved);
      if r.Ok? then Ok(r.value + [name]) else r
  }

  function VisitAll(g: Graph, names: seq<Name>, visiting: set<Name>, resolved: seq<Name>): Result<seq<Name>, Failure>
    decreases |g.Keys - visiting|, |names|
  {
    if names == [] then Ok(resolved)
    else
      var r := Visit(g, names[0], visiting, resolved);
      if r.Ok? then VisitAll(g, names[1..], visiting, r.value) else r
  }

  /** The names in load order, or the error raised. */
  function Resolve(manifests: seq<Manifest>): Result<seq<Name>, Failure> {
    VisitAll(ByName(manifests), Names(StableSort(ByPriority(), manifests)), {}, [])
  }

  // ----- the mutable form -----

  class Resolver {
    const nameToManifest: Graph
    var resolved: seq<Name>
    var visiting: set<Name>

    constructor (g: Graph)
      ensures nameToManifest == g && resolved == [] && visiting == {}
    {
      nameToManifest := g;
      resolved, visiting := [], {};
    }

    method VisitName(name: Name) returns (raised: Option<Failure>)
      modifies this
      ensures match Visit(nameToManifest, name, old(visiting), old(resolved))
        case Ok(r) => raised.None? && resolved == r && visiting == old(visiting)
        case Err(e) => raised == Some(e)
      decreases |nameToManifest.Keys - visiting|
    {
      if name in resolved {
        return None;
      }
      if name in visiting {
        return Some(Circular(name));
      }
      if name !in nameToManifest {
        return Some(Missing(name));
      }
      ghost var outer := nameToManifest.Keys - visiting;
      visiting := visiting + {name};
      assert nameToManifest.Keys - visiting == outer - {name};
      var deps := nameToManifest[name].dependencies;
      for i := 0 to |deps|
        invariant visiting == old(visiting) + {name}
        invariant VisitAll(nameToManifest, deps, visiting, old(resolved)) == VisitAll(nameToManifest, deps[i..], visiting, resolved)
      {
        raised := VisitName(deps[i]);
        assert deps[i..][1..] == deps[i + 1..];
        if raised.Some? {
          return;
        }
      }
      visiting := visiting - {name};
      resolved := resolved + [name];
      return None;
    }
  }

  // ----- paths in the dependency graph -----

  /** Each name depends directly on the next. */
  ghost predicate Path(g: Graph, p: seq<Name>) {
    p != [] && forall i :: 0 <= i < |p| - 1 ==> p[i] in g && p[i + 1] in g[p[i]].dependencies
  }

  /** b is a proper transitive dependency of a. */
  ghost predicate DependsOn(g: Graph, a: Name, b: Name) {
    exists p :: Path(g, p) && |p| >= 2 && p[0] == a && p[|p| - 1] == b
  }

  ghost predicate Acyclic(g: Graph) {
    forall n :: !DependsOn(g, n, n)
  }

  ghost predicate NoneMissing(g: Graph) {
    forall n, d :: n in g && d in g[n].dependencies ==> d in g
  }

  lemma EdgeDepends(g: Graph, a: Name, b: Name)
    requires a in g && b in g[a].dependencies
    ensures DependsOn(g, a, b)
  {
    assert Path(g, [a, b]);
  }

  lemma EdgeThenDepends(g: Graph, a: Name, b: Name, c: Name)
    requires a in g && b in g[a].dependencies && DependsOn(g, b, c)
    ensures DependsOn(g, a, c)
  {
    var p :| Path(g, p) && |p| >= 2 && p[0] == b && p[|p| - 1] == c;
    assert Path(g, [a] + p);
  }

  // ----- a successful sort -----

  ghost predicate IsBefore(r: seq<Name>, a: Name, b: Name) {
    exists i, j :: 0 <= i < j < |r| && r[i] == a && r[j] == b
  }

  /** Distinct declared names, each after all of its dependencies. */
  ghost predicate Ordered(g: Graph, r: seq<Name>) {
    && Distinct(r)
    && forall i :: 0 <= i < |r| ==> r[i] in g && forall d :: d in g[r[i]].dependencies ==> d in r[..i]
  }

  ghost predicate Apart(visiting: set<Name>, r: seq<Name>) {
    forall n :: n in visiting ==> n !in r
  }

  /** What one successful visit adds: name itself and some of its transitive dependencies. */
  ghost predicate Adds(g: Graph, name: Name, before: seq<Name>, after: seq<Name>) {
    && before <= after
    && name in after
    && forall x :: x in after && x !in before ==> x == name || DependsOn(g, name, x)
  }

  lemma {:induction false} VisitOk(g: Graph, name: Name, visiting: set<Name>, resolved: seq<Name>)
    requires Ordered(g, resolved) && Apart(visiting, resolved)
    requires Visit(g, name, visiting, resolved).Ok?
    ensures var r := Visit(g, name, visiting, resolved).value;
      Ordered(g, r) && Apart(visiting, r) && Adds(g, name, resolved, r)
    decreases |g.Keys - visiting|, 0
  {
    if name !in resolved {
      assert g.Keys - (visiting + {name}) == (g.Keys - visiting) - {name};
      var deps := g[name].dependencies;
      VisitAllOk(g, deps, visiting + {name}, resolved);
      var inner := VisitAll(g, deps, visiting + {name}, resolved).value;
      var r := inner + [name];
      forall x | x in r && x !in resolved ensures x == name || DependsOn(g, name, x) {
        if x in inner {
          var d :| d in deps && (x == d || DependsOn(g, d, x));
          EdgeDepends(g, name, d);
          if x != d {
            EdgeThenDepends(g, name, d, x);
          }
        }
      }
      OrderedGrows(g, inner, name);
    }
  }

  lemma OrderedGrows(g: Graph, inner: seq<Name>, name: Name)
    requires Ordered(g, inner) && name in g && name !in inner && forall d :: d in g[name].dependencies ==> d in inner
    ensures Ordered(g, inner + [name])
  {
    var r := inner + [name];
    assert r[..|inner|] == inner;
    forall i | 0 <= i < |r| ensures r[i] in g && forall d :: d in g[r[i]].dependencies ==> d in r[..i] {
      if i < |inner| {
        assert r[i] == inner[i] && r[..i] == inner[..i];
      }
    }
  }

  lemma {:induction false} VisitAllOk(g: Graph, names: seq<Name>, visiting: set<Name>, resolved: seq<Name>)
    requires Ordered(g, resolved) && Apart(visiting, resolved)
    requires VisitAll(g, names, visiting, resolved).Ok?
    ensures var r := VisitAll(g, names, visiting, resolved).value;
      && Ordered(g, r) && Apart(visiting, r) && resolved <= r
      && (forall n :: n in names ==> n in r)
      && forall x :: x in r && x !in resolved ==> exists n :: n in names && (x == n || DependsOn(g, n, x))
    decreases |g.Keys - visiting|, |names|
  {
    if names != [] {
      VisitOk(g, names[0], visiting, resolved);
      var next := Visit(g, names[0], visiting, resolved).value;
      VisitAllOk(g, names[1..], visiting, next);
      var r := VisitAll(g, names, visiting, resolved).value;
      forall n | n in names ensures n in r {
        assert n == names[0] || n in names[1..];
      }
      forall x | x in r && x !in resolved ensures exists n :: n in names && (x == n || DependsOn(g, n, x)) {
        if x in next {
          assert names[0] in names;
        } else {
          var n :| n in names[1..] && (x == n || DependsOn(g, n, x));
          assert n in names;
        }
      }
    }
  }

  /** Along a path, positions in an ordered list go down; so no path returns to its start. */
  lemma {:induction false} PathGoesDown(g: Graph, r: seq<Name>, p: seq<Name>, i: nat)
    requires Ordered(g, r) && Path(g, p) && i < |r| && r[i] == p[0]
    ensures exists j :: 0 <= j <= i && r[j] == p[|p| - 1] && (|p| >= 2 ==> j < i)
    decreases |p|
  {
    if |p| >= 2 {
      assert p[1] in r[..i];
      var k :| 0 <= k < i && r[..i][k] == p[1];
      assert Path(g, p[1..]);
      PathGoesDown(g, r, p[1..], k);
    }
  }

  lemma OrderedIsAcyclic(g: Graph, r: seq<Name>)
    requires Ordered(g, r) && forall n :: n in g ==> n in r
    ensures Acyclic(g) && NoneMissing(g)
  {
    forall n ensures !DependsOn(g, n, n) {
      if DependsOn(g, n, n) {
        var p :| Path(g, p) && |p| >= 2 && p[0] == n && p[|p| - 1] == n;
        var i :| 0 <= i < |r| && r[i] == n;
        PathGoesDown(g, r, p, i);
      }
    }
    forall n, d | n in g && d in g[n].dependencies ensures d in g {
      var i :| 0 <= i < |r| && r[i] == n;
      assert d in r[..i];
    }
  }

  // ----- a failing sort -----

  /** The error a failing visit raises is true of the graph: a name on a cycle, or a dependency nobody declares. */
  ghost predicate Justified(g: Graph, e: Failure) {
    match e
    case Circular(n) => DependsOn(g, n, n)
    case Missing(n) => n !in g && exists m :: m in g && n in g[m].dependencies
  }

  /** stack is the path of names being visited; it leads to the name about to be visited. */
  ghost predicate OnStack(g: Graph, stack: seq<Name>, visiting: set<Name>, name: Name) {
    Path(g, stack + [name]) && visiting == (set n | n in stack) && (stack == [] ==> name in g)
  }

  lemma StackedTwice(g: Graph, name: Name, stack: seq<Name>, visiting: set<Name>)
    requires OnStack(g, stack, visiting, name) && name in visiting
    ensures DependsOn(g, name, name)
  {
    var i :| 0 <= i < |stack| && stack[i] == name;
    var loop := (stack + [name])[i..];
    assert Path(g, loop) && loop[0] == name && loop[|loop| - 1] == name;
  }

  lemma StackedMissing(g: Graph, name: Name, stack: seq<Name>, visiting: set<Name>)
    requires OnStack(g, stack, visiting, name) && name !in g
    ensures Justified(g, Missing(name))
  {
    var p := stack + [name];
    assert p[|stack| - 1] in g && p[|stack|] in g[p[|stack| - 1]].dependencies;
  }

  lemma StackGrows(g: Graph, name: Name, stack: seq<Name>, visiting: set<Name>, d: Name)
    requires OnStack(g, stack, visiting, name) && name in g && d in g[name].dependencies
    ensures OnStack(g, stack + [name], visiting + {name}, d)
  {
  }

  lemma {:induction false} VisitErr(g: Graph, name: Name, stack: seq<Name>, visiting: set<Name>, resolved: seq<Name>)
    requires OnStack(g, stack, visiting, name)
    requires Visit(g, name, visiting, resolved).Err?
    ensures Justified(g, Visit(g, name, visiting, resolved).error)
    decreases |g.Keys - visiting|, 0
  {
    if name in visiting {
      StackedTwice(g, name, stack, visiting);
    } else if name !in g {
      StackedMissing(g, name, stack, visiting);
    } else {
      assert g.Keys - (visiting + {name}) == (g.Keys - visiting) - {name};
      forall d | d in g[name].dependencies ensures OnStack(g, stack + [name], visiting + {name}, d) {
        StackGrows(g, name, stack, visiting, d);
      }
      VisitAllErr(g, g[name].dependencies, stack + [name], visiting + {name}, resolved);
    }
  }

  lemma {:induction false} VisitAllErr(g: Graph, names: seq<Name>, stack: seq<Name>, visiting: set<Name>, resolved: seq<Name>)
    requires forall n :: n in names ==> OnStack(g, stack, visiting, n)
    requires VisitAll(g, names, visiting, resolved).Err?
    ensures Justified(g, VisitAll(g, names, visiting, resolved).error)
    decreases |g.Keys - visiting|, |names|
  {
    var r := Visit(g, names[0], visiting, resolved);
    assert names[0] in names;
    if r.Err? {
      VisitErr(g, names[0], stack, visiting, resolved);
    } else {
      VisitAllErr(g, names[1..], stack, visiting, r.value);
    }
  }

  // ----- the main results -----

  lemma {:induction false} ByNameHolds(manifests: seq<Manifest>)
    ensures forall m :: m in manifests ==> m.name in ByName(manifests)
    ensures forall n :: n in ByName(manifests) ==> ByName(manifests)[n] in manifests && ByName(manifests)[n].name == n
  {
    if manifests != [] {
      var init := manifests[..|manifests| - 1];
      ByNameHolds(init);
      assert manifests == init + [manifests[|manifests| - 1]];
    }
  }

  /** Of several manifests under one name the last one given counts, and its dependencies are the ones followed. */
  lemma {:induction false} LastOfNameCounts(manifests: seq<Manifest>, i: nat)
    requires i < |manifests| && forall j :: i < j < |manifests| ==> manifests[j].name != manifests[i].name
    ensures manifests[i].name in ByName(manifests) && ByName(manifests)[manifests[i].name] == manifests[i]
  {
    if i < |manifests| - 1 {
      LastOfNameCounts(manifests[..|manifests| - 1], i);
    }
  }

  lemma SortedNames(manifests: seq<Manifest>)
    ensures forall n :: n in Names(StableSort(ByPriority(), manifests)) <==> n in ByName(manifests)
  {
    var sorted := StableSort(ByPriority(), manifests);
    StableSortSorts(ByPriority(), manifests);
    ByNameHolds(manifests);
    forall n | n in Names(sorted) ensures n in ByName(manifests) {
      var i :| 0 <= i < |sorted| && sorted[i].name == n;
      assert sorted[i] in multiset(sorted);
    }
    forall n | n in ByName(manifests) ensures n in Names(sorted) {
      var m := ByName(manifests)[n];
      assert m in multiset(sorted);
      var i :| 0 <= i < |sorted| && sorted[i] == m;
      assert Names(sorted)[i] == n;
    }
  }

  /** On success the order lists every declared name once, each after all of its dependencies. */
  lemma ResolveOrders(manifests: seq<Manifest>)
    requires Resolve(manifests).Ok?
    ensures var order := Resolve(manifests).value;
      Ordered(ByName(manifests), order) && forall n :: n in order <==> n in ByName(manifests)
  {
    SortedNames(manifests);
    VisitAllOk(ByName(manifests), Names(StableSort(ByPriority(), manifests)), {}, []);
  }

  /** The sort succeeds exactly when no dependency is missing and the graph has no cycle; otherwise the error it raises is true. */
  lemma ResolveSucceedsExactly(manifests: seq<Manifest>)
    ensures var g := ByName(manifests);
      && (Resolve(manifests).Ok? <==> NoneMissing(g) && Acyclic(g))
      && (Resolve(manifests).Err? ==> Justified(g, Resolve(manifests).error))
  {
    var g := ByName(manifests);
    SortedNames(manifests);
    if Resolve(manifests).Ok? {
      ResolveOrders(manifests);
      OrderedIsAcyclic(g, Resolve(manifests).value);
    } else {
      var names := Names(StableSort(ByPriority(), manifests));
      forall n | n in names ensures OnStack(g, [], {}, n) {}
      VisitAllErr(g, names, [], {}, []);
    }
  }

  /** Every name of a successful sort was added while visiting some root, after all earlier roots. */
  lemma {:induction false} AddedUnderRoot(g: Graph, roots: seq<Name>, resolved: seq<Name>, x: Name) returns (k: nat)
    requires Ordered(g, resolved) && VisitAll(g, roots, {}, resolved).Ok?
    requires x in VisitAll(g, roots, {}, resolved).value && x !in resolved
    ensures k < |roots| && (x == roots[k] || DependsOn(g, roots[k], x))
    ensures forall j :: 0 <= j < k ==> IsBefore(VisitAll(g, roots, {}, resolved).value, roots[j], x)
    decreases |roots|
  {
    VisitOk(g, roots[0], {}, resolved);
    var next := Visit(g, roots[0], {}, resolved).value;
    if x in next {
      k := 0;
    } else {
      var rest := AddedUnderRoot(g, roots[1..], next, x);
      k := rest + 1;
      VisitAllOk(g, roots[1..], {}, next);
      var r := VisitAll(g, roots, {}, resolved).value;
      PrefixIsBefore(next, r, roots[0], x);
      forall j | 0 <= j < k ensures IsBefore(r, roots[j], x) {
        if j > 0 {
          assert roots[j] == roots[1..][j - 1];
        }
      }
    }
  }

  lemma PrefixIsBefore(front: seq<Name>, r: seq<Name>, a: Name, x: Name)
    requires front <= r && a in front && x !in front && x in r
    ensures IsBefore(r, a, x)
  {
    var i :| 0 <= i < |front| && front[i] == a;
    assert r == front + r[|front|..];
    var j :| 0 <= j < |r[|front|..]| && r[|front|..][j] == x;
    assert r[i] == a && r[|front| + j] == x;
  }

  /**
    Every priority inversion is justified: with distinct names, if x precedes y in the load order although
    y has strictly higher priority, then x is a proper transitive dependency of a plugin of at least y's priority.
   */
  lemma InversionsAreJustified(manifests: seq<Manifest>, x: Name, y: Name) returns (z: Name)
    requires Distinct(Names(manifests)) && Resolve(manifests).Ok?
    requires IsBefore(Resolve(manifests).value, x, y)
    requires var g := ByName(manifests); x in g && y in g && g[y].priority > g[x].priority
    ensures var g := ByName(manifests);
      z in g && DependsOn(g, z, x) && g[z].priority >= g[y].priority
  {
    var sorted := StableSort(ByPriority(), manifests);
    StableSortSorts(ByPriority(), manifests);
    SortedAreDeclared(manifests);
    var k := RootOf(manifests, x);
    var j := PlaceOf(manifests, y);
    if j < k {
      ResolveOrders(manifests);
      NotBothWays(Resolve(manifests).value, x, y);
    }
    assert ByPriority()(sorted[k]) <= ByPriority()(sorted[j]);
    z := sorted[k].name;
  }

  /** The first plugin in priority order under which x is loaded; all those before it are loaded before x. */
  lemma RootOf(manifests: seq<Manifest>, x: Name) returns (k: nat)
    requires Resolve(manifests).Ok? && x in Resolve(manifests).value
    ensures var sorted := StableSort(ByPriority(), manifests);
      && k < |sorted| && (x == sorted[k].name || DependsOn(ByName(manifests), sorted[k].name, x))
      && forall j :: 0 <= j < k ==> IsBefore(Resolve(manifests).value, sorted[j].name, x)
  {
    var names := Names(StableSort(ByPriority(), manifests));
    k := AddedUnderRoot(ByName(manifests), names, [], x);
    assert forall j :: 0 <= j < k ==> IsBefore(Resolve(manifests).value, names[j], x);
  }

  lemma PlaceOf(manifests: seq<Manifest>, y: Name) returns (j: nat)
    requires y in ByName(manifests)
    ensures var sorted := StableSort(ByPriority(), manifests); j < |sorted| && sorted[j].name == y
  {
    SortedNames(manifests);
    var names := Names(StableSort(ByPriority(), manifests));
    j :| j < |names| && names[j] == y;
  }

  /** With distinct names the graph declares exactly the manifests that are sorted. */
  lemma SortedAreDeclared(manifests: seq<Manifest>)
    requires Distinct(Names(manifests))
    ensures var sorted := StableSort(ByPriority(), manifests);
      forall i :: 0 <= i < |sorted| ==> sorted[i].name in ByName(manifests) && ByName(manifests)[sorted[i].name] == sorted[i]
  {
    var sorted := StableSort(ByPriority(), manifests);
    StableSortSorts(ByPriority(), manifests);
    forall i | 0 <= i < |sorted|
      ensures sorted[i].name in ByName(manifests) && ByName(manifests)[sorted[i].name] == sorted[i]
    {
      assert sorted[i] in multiset(sorted);
      ByNameExact(manifests, sorted[i]);
    }
  }

  lemma NotBothWays(r: seq<Name>, x: Name, y: Name)
    requires Distinct(r)
    ensures !(IsBefore(r, x, y) && IsBefore(r, y, x))
  {
  }

  lemma ByNameExact(manifests: seq<Manifest>, m: Manifest)
    requires Distinct(Names(manifests)) && m in manifests
    ensures m.name in ByName(manifests) && ByName(manifests)[m.name] == m
  {
    ByNameHolds(manifests);
    var n := ByName(manifests)[m.name];
    var i :| 0 <= i < |manifests| && manifests[i] == m;
    var j :| 0 <= j < |manifests| && manifests[j] == n;
    assert Names(manifests)[i] == Names(manifests)[j];
  }

  lemma {:induction false} VisitIndependent(g: Graph, names: seq<Name>, resolved: seq<Name>)
    requires Distinct(names) && forall n :: n in names ==> n in g && g[n].dependencies == [] && n !in resolved
    ensures VisitAll(g, names, {}, resolved) == Ok(resolved + names)
    decreases |names|
  {
    if names == [] {
      assert resolved + names == resolved;
    } else {
      var rest, n := names[1..], names[0];
      assert n in names && g.Keys - {} == g.Keys;
      assert Visit(g, n, {}, resolved) == Ok(resolved + [n]);
      assert Distinct(rest);
      forall x | x in rest ensures x in names && x !in resolved + [n] {
        var i :| 0 <= i < |rest| && rest[i] == x;
        assert names[i + 1] == x;
      }
      VisitIndependent(g, rest, resolved + [n]);
      assert resolved + names == resolved + [n] + rest;
    }
  }

  /** Without dependencies the load order is the stable sort by descending priority. */
  lemma IndependentPluginsLoadByPriority(manifests: seq<Manifest>)
    requires Distinct(Names(manifests)) && forall m :: m in manifests ==> m.dependencies == []
    ensures Resolve(manifests) == Ok(Names(StableSort(ByPriority(), manifests)))
  {
    var sorted := StableSort(ByPriority(), manifests);
    StableSortSorts(ByPriority(), manifests);
    ByNameHolds(manifests);
    SortedNames(manifests);
    forall i, j | 0 <= i < j < |sorted| ensures Names(sorted)[i] != Names(sorted)[j] {
      DistinctNamesOnce(manifests, sorted, i, j);
    }
    VisitIndependent(ByName(manifests), Names(sorted), []);
    assert [] + Names(sorted) == Names(sorted);
  }

  /** Two positions of a permutation of distinctly named manifests hold different names. */
  lemma DistinctNamesOnce(manifests: seq<Manifest>, sorted: seq<Manifest>, i: nat, j: nat)
    requires Distinct(Names(manifests)) && multiset(sorted) == multiset(manifests) && i < j < |sorted|
    ensures sorted[i].name != sorted[j].name
  {
    var a, b := sorted[i], sorted[j];
    assert a in multiset(sorted) && b in multiset(sorted);
    ByNameExact(manifests, a);
    ByNameExact(manifests, b);
    if a == b {
      OccursTwice(sorted, i, j);
      OnceEach(manifests, a);
    }
  }

  lemma OccursTwice(s: seq<Manifest>, i: nat, j: nat)
    requires i < j < |s| && s[i] == s[j]
    ensures multiset(s)[s[i]] >= 2
  {
    var a := s[i];
    assert a == s[..j][i] && a in s[..j] && a in multiset(s[..j]);
    assert a == s[j..][0] && a in s[j..] && a in multiset(s[j..]);
    assert s == s[..j] + s[j..];
  }

  lemma {:induction false} OnceEach(manifests: seq<Manifest>, m: Manifest)
    requires Distinct(Names(manifests))
    ensures multiset(manifests)[m] <= 1
  {
    if manifests != [] {
      var rest := manifests[1..];
      assert manifests == [manifests[0]] + rest;
      forall i, j | 0 <= i < j < |rest| ensures Names(rest)[i] != Names(rest)[j] {
        assert Names(manifests)[i + 1] != Names(manifests)[j + 1];
      }
      OnceEach(rest, m);
      forall i | 0 <= i < |rest| ensures manifests[0].name != rest[i].name {
        assert Names(manifests)[0] != Names(manifests)[i + 1];
      }
    }
  }

  method ResolveLoadOrder(manifests: seq<Manifest>) returns (r: Result<seq<Manifest>, Failure>)
    ensures match Resolve(manifests)
      case Err(e) => r == Err(e)
      case Ok(names) => r.Ok? && Names(r.value) == names && forall m :: m in r.value ==> m.name in ByName(manifests) && ByName(manifests)[m.name] == m
  {
    var resolver := new Resolver(ByName(manifests));
    var sorted := Names(StableSort(ByPriority(), manifests));
    for i := 0 to |sorted|
      invariant resolver.visiting == {}
      invariant Resolve(manifests) == VisitAll(resolver.nameToManifest, sorted[i..], {}, resolver.resolved)
    {
      var raised := resolver.VisitName(sorted[i]);
      assert sorted[i..][1..] == sorted[i + 1..];
      if raised.Some? {
        return Err(raised.value);
      }
    }
    ResolveOrders(manifests);
    ByNameHolds(manifests);
    var names, g := resolver.resolved, resolver.nameToManifest;
    return Ok(seq(|names|, i requires 0 <= i < |names| && names[i] in g => g[names[i]]));
  }
}
