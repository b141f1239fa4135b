/**
  Loading the plugins in order into a registry, and shutting them down in reverse. What importing,
  constructing and initialising a plugin does is foreign: Facts says for which names each step works.
 */
module PluginLifecycle {
  import opened Wrappers
  import opened Seqs
  import opened LoadOrder

  datatype PluginState = Active | Disabled

  datatype Facts = Facts(
    enabled: set<Name>, entryPoint: set<Name>, imports: set<Name>, constructs: set<Name>, initialises: set<Name>)

  datatype MissingDependency = NotLoaded(name: Name) | NotActive(name: Name)

  datatype LoadResult =
    | Loaded(name: Name)
    | ImportFailed(name: Name)
    | ConstructFailed(name: Name)
    | DependenciesMissing(name: Name, missing: seq<MissingDependency>)
    | InitialiseFailed(name: Name)

  datatype Registry = Registry(plugins: map<Name, PluginState>, loadOrder: seq<Name>)

  // ----- loading -----

  predicate IsActive(plugins: map<Name, PluginState>, n: Name) {
    n in plugins && plugins[n].Active?
  }

  function CheckDependencies(plugins: map<Name, PluginState>, deps: seq<Name>): (missing: seq<MissingDependency>)
    ensures missing == [] <==> forall d :: d in deps ==> IsActive(plugins, d)
    ensures forall d :: NotLoaded(d) in missing <==> d in deps && d !in plugins
    ensures forall d :: NotActive(d) in missing <==> d in deps && d in plugins && !plugins[d].Active?
  {
    if deps == [] then []
    else
      var before, last := CheckDependencies(plugins, deps[..|deps| - 1]), deps[|deps| - 1];
      assert last in deps && forall d :: d in deps ==> d == last || d in deps[..|deps| - 1];
      if last !in plugins then before + [NotLoaded(last)]
      else if plugins[last] != Active then before + [NotActive(last)]
      else before
  }

  /** load_plugin: construct, then check the dependencies, then initialise and register. */
  function LoadPlugin(r: Registry, m: Manifest, f: Facts): (Registry, LoadResult) {
    if m.name !in f.constructs then (r, ConstructFailed(m.name))
    else
      var missing := CheckDependencies(r.plugins, m.dependencies);
      if missing != [] then (r, DependenciesMissing(m.name, missing))
      else if m.name !in f.initialises then (r, InitialiseFailed(m.name))
      else (Registry(r.plugins[m.name := Active], r.loadOrder + [m.name]), Loaded(m.name))
  }

  /** One turn of load_all's loop; a disabled plugin, or one without an entry point, leaves no result. */
  function LoadNext(r: Registry, m: Manifest, f: Facts): (Registry, seq<LoadResult>) {
    if m.name !in f.enabled then (r, [])
    else if m.name !in f.entryPoint then (r, [])
    else if m.name !in f.imports then (r, [ImportFailed(m.name)])
    else
      var (next, result) := LoadPlugin(r, m, f);
      (next, [result])
  }

  function LoadAll(r: Registry, order: seq<Manifest>, f: Facts): (Registry, seq<LoadResult>) {
    if order == [] then (r, [])
    else
      var (mid, before) := LoadAll(r, order[..|order| - 1], f);
      var (next, result) := LoadNext(mid, order[|order| - 1], f);
      (next, before + result)
  }

  // ----- shutting down -----

  /** A call of a plugin's shutdown, with the states of all plugins when it is made. */
  datatype Call = Call(name: Name, states: map<Name, PluginState>)

  /** Goes through the load order from its end; a plugin whose shutdown raises stays active. */
  function Shutdown(plugins: map<Name, PluginState>, order: seq<Name>, raises: set<Name>): (map<Name, PluginState>, seq<Call>) {
    if order == [] then (plugins, [])
    else
      var name, earlier := order[|order| - 1], order[..|order| - 1];
      if !IsActive(plugins, name) then Shutdown(plugins, earlier, raises)
      else
        var after := if name in raises then plugins else plugins[name := Disabled];
        var (last, calls) := Shutdown(after, earlier, raises);
        (last, [Call(name, plugins)] + calls)
  }

  // ----- the mutable objects -----

  class PluginRegistry {
    var plugins: map<Name, PluginState>
    var loadOrder: seq<Name>

    ghost function Model(): Registry
      reads this
    {
      Registry(plugins, loadOrder)
    }

    constructor ()
      ensures Model() == Registry(map[], [])
    {
      plugins, loadOrder := map[], [];
    }

    method CheckDeps(deps: seq<Name>) returns (missing: seq<MissingDependency>)
      ensures missing == CheckDependencies(plugins, deps)
    {
      missing := [];
      for i := 0 to |deps|
        invariant missing == CheckDependencies(plugins, deps[..i])
      {
        assert deps[..i + 1][..i] == deps[..i];
        if deps[i] !in plugins {
          missing := missing + [NotLoaded(deps[i])];
        } else if plugins[deps[i]] != Active {
          missing := missing + [NotActive(deps[i])];
        }
      }
      assert deps[..|deps|] == deps;
    }

    method Load(m: Manifest, f: Facts) returns (result: LoadResult)
      modifies this
      ensures (Model(), result) == LoadPlugin(old(Model()), m, f)
    {
      if m.name !in f.constructs {
        return ConstructFailed(m.name);
      }
      var missing := CheckDeps(m.dependencies);
      if missing != [] {
        return DependenciesMissing(m.name, missing);
      }
      if m.name !in f.initialises {
        return InitialiseFailed(m.name);
      }
      plugins := plugins[m.name := Active];
      loadOrder := loadOrder + [m.name];
      return Loaded(m.name);
    }

    method ShutdownAll(raises: set<Name>) returns (calls: seq<Call>)
      modifies this`plugins
      ensures (plugins, calls) == Shutdown(old(plugins), loadOrder, raises)
    {
      calls := [];
      ghost var all := Shutdown(plugins, loadOrder, raises);
      var i := |loadOrder|;
      assert loadOrder[..i] == loadOrder;
      while i > 0
        invariant 0 <= i <= |loadOrder|
        invariant Shutdown(plugins, loadOrder[..i], raises).0 == all.0
        invariant calls + Shutdown(plugins, loadOrder[..i], raises).1 == all.1
      {
        i := i - 1;
        var name := loadOrder[i];
        ghost var rest := Shutdown(plugins, loadOrder[..i + 1], raises).1;
        assert loadOrder[..i + 1][..i] == loadOrder[..i];
        if name in plugins && plugins[name] == Active {
          assert calls + rest == calls + [rest[0]] + rest[1..];
          calls := calls + [Call(name, plugins)];
          if name !in raises {
            plugins := plugins[name := Disabled];
          }
        }
      }
      assert loadOrder[..0] == [] && calls + [] == calls;
    }
  }

  class PluginManager {
    const registry: PluginRegistry

    constructor ()
      ensures fresh(registry) && registry.Model() == Registry(map[], [])
    {
      registry := new PluginRegistry();
    }

    /** Loads discovered manifests in dependency order; a sorting error is raised before anything is loaded. */
    method LoadDiscovered(manifests: seq<Manifest>, f: Facts) returns (r: Result<seq<LoadResult>, Failure>)
      modifies registry
      ensures match Resolve(manifests)
        case Err(e) => r == Err(e) && registry.Model() == old(registry.Model())
        case Ok(names) => r.Ok? && exists order: seq<Manifest> ::
          && Names(order) == names && (forall m :: m in order ==> m.name in ByName(manifests) && m == ByName(manifests)[m.name])
          && (registry.Model(), r.value) == LoadAll(old(registry.Model()), order, f)
    {
      var sorted := ResolveLoadOrder(manifests);
      if sorted.Err? {
        return Err(sorted.error);
      }
      var order, results := sorted.value, [];
      for i := 0 to |order|
        invariant (registry.Model(), results) == LoadAll(old(registry.Model()), order[..i], f)
      {
        var m := order[i];
        assert order[..i + 1][..i] == order[..i] && results + [] == results;
        if m.name in f.enabled && m.name in f.entryPoint {
          if m.name !in f.imports {
            results := results + [ImportFailed(m.name)];
          } else {
            var result := registry.Load(m, f);
            results := results + [result];
          }
        }
      }
      assert order[..|order|] == order;
      return Ok(results);
    }
  }

  // ----- the outcome of loading -----

  predicate Loadable(f: Facts, n: Name) {
    n in f.enabled && n in f.entryPoint && n in f.imports && n in f.constructs && n in f.initialises
  }

  /** m is in s exactly when it is loadable and all its dependencies are in s. */
  ghost predicate Solves(m: Manifest, f: Facts, s: set<Name>) {
    m.name in s <==> Loadable(f, m.name) && forall d :: d in m.dependencies ==> d in s
  }

  /** Each manifest's dependencies are among the names before it, and names are distinct. */
  ghost predicate InOrder(order: seq<Manifest>) {
    && Distinct(Names(order))
    && forall i, d :: 0 <= i < |order| && d in order[i].dependencies ==> d in Names(order[..i])
  }

  /** The registry after loading the first n manifests: everything in it is active and in _load_order once. */
  ghost predicate Tracks(r: Registry) {
    && (forall n :: n in r.plugins <==> n in r.loadOrder)
    && (forall n :: n in r.plugins ==> r.plugins[n].Active?)
    && Distinct(r.loadOrder)
  }

  /** The load order is dependency-closed: a plugin's dependencies were all loaded before it. */
  ghost predicate Closed(loadOrder: seq<Name>, g: Graph) {
    forall i :: 0 <= i < |loadOrder| ==> loadOrder[i] in g && forall d :: d in g[loadOrder[i]].dependencies ==> d in loadOrder[..i]
  }

  /** Loading one more manifest loads it exactly when it is loadable and its dependencies are all loaded. */
  lemma LoadNextOutcome(r: Registry, m: Manifest, f: Facts)
    requires Tracks(r) && m.name !in r.plugins
    ensures var next := LoadNext(r, m, f).0;
      && Tracks(next)
      && next == (if Loadable(f, m.name) && (forall d :: d in m.dependencies ==> d in r.plugins)
                  then Registry(r.plugins[m.name := Active], r.loadOrder + [m.name]) else r)
      && (next != r <==> Loaded(m.name) in LoadNext(r, m, f).1)
  {
  }

  /** The outcome for the first i manifests, from an empty registry. */
  ghost predicate LoadedExactly(order: seq<Manifest>, i: nat, r: Registry, f: Facts)
    requires i <= |order|
  {
    forall j :: 0 <= j < i ==> Solves(order[j], f, r.plugins.Keys)
  }

  /** The registry r is what loading the first i manifests should leave. */
  ghost predicate Reached(order: seq<Manifest>, i: nat, r: Registry, f: Facts, g: Graph)
    requires i <= |order|
  {
    && Tracks(r) && Closed(r.loadOrder, g) && LoadedExactly(order, i, r, f)
    && forall n :: n in r.plugins ==> n in Names(order[..i])
  }

  lemma ReachNext(order: seq<Manifest>, i: nat, r: Registry, f: Facts, g: Graph)
    requires i < |order| && InOrder(order) && Reached(order, i, r, f, g)
    requires order[i].name in g && g[order[i].name] == order[i]
    ensures Reached(order, i + 1, LoadNext(r, order[i], f).0, f, g)
  {
    FreshName(order, i);
    LoadNextOutcome(r, order[i], f);
    ClosedGrows(r, order[i], f, g);
    StillSolved(order, i, r, f);
    assert Names(order[..i + 1]) == Names(order[..i]) + [order[i].name];
  }

  lemma {:induction false} LoadPrefixOutcome(order: seq<Manifest>, i: nat, f: Facts, g: Graph)
    requires i <= |order| && InOrder(order)
    requires forall m :: m in order ==> m.name in g && g[m.name] == m
    ensures Reached(order, i, LoadAll(Registry(map[], []), order[..i], f).0, f, g)
  {
    if i > 0 {
      LoadPrefixOutcome(order, i - 1, f, g);
      assert order[..i][..i - 1] == order[..i - 1] && order[i - 1] in order;
      ReachNext(order, i - 1, LoadAll(Registry(map[], []), order[..i - 1], f).0, f, g);
    }
  }

  /** Loading manifest i settles it and disturbs no earlier one. */
  lemma StillSolved(order: seq<Manifest>, i: nat, r: Registry, f: Facts)
    requires i < |order| && InOrder(order) && Tracks(r) && LoadedExactly(order, i, r, f)
    requires order[i].name !in r.plugins
    ensures LoadedExactly(order, i + 1, LoadNext(r, order[i], f).0, f)
  {
    var next := LoadNext(r, order[i], f).0;
    LoadNextOutcome(r, order[i], f);
    forall j | 0 <= j < i + 1 ensures Solves(order[j], f, next.plugins.Keys) {
      forall d | d in order[j].dependencies ensures d != order[i].name {
        EarlierDependency(order, j, i, d);
      }
      if j < i {
        assert Solves(order[j], f, r.plugins.Keys);
        assert Names(order)[j] != Names(order)[i];
      }
    }
  }

  lemma ClosedGrows(r: Registry, m: Manifest, f: Facts, g: Graph)
    requires Tracks(r) && m.name !in r.plugins && Closed(r.loadOrder, g) && m.name in g && g[m.name] == m
    ensures Closed(LoadNext(r, m, f).0.loadOrder, g)
  {
    LoadNextOutcome(r, m, f);
    var before, after := r.loadOrder, LoadNext(r, m, f).0.loadOrder;
    if after != before {
      assert after[..|before|] == before;
      forall i | 0 <= i < |before| ensures after[i] == before[i] && after[..i] == before[..i] {}
    }
  }

  lemma FreshName(order: seq<Manifest>, i: nat)
    requires InOrder(order) && i < |order|
    ensures order[i].name !in Names(order[..i])
  {
    forall j | 0 <= j < i ensures Names(order[..i])[j] != order[i].name {
      assert Names(order)[j] != Names(order)[i];
    }
  }

  lemma EarlierDependency(order: seq<Manifest>, j: nat, i: nat, d: Name)
    requires InOrder(order) && j <= i < |order| && d in order[j].dependencies
    ensures d != order[i].name
  {
    var k :| 0 <= k < j && Names(order[..j])[k] == d;
    assert Names(order)[k] != Names(order)[i];
  }

  /** A sorted list of manifests meets the order load_all needs. */
  lemma SortedManifestsInOrder(order: seq<Manifest>, g: Graph)
    requires Ordered(g, Names(order)) && forall m :: m in order ==> m.name in g && g[m.name] == m
    ensures InOrder(order)
  {
    forall i, d | 0 <= i < |order| && d in order[i].dependencies ensures d in Names(order[..i]) {
      assert order[i] in order && Names(order)[..i] == Names(order[..i]);
    }
  }

  /**
    The exact outcome of load_all from an empty registry: a discovered plugin loads exactly when it is enabled,
    imports, constructs and initialises and all its dependencies load, and no other set of names satisfies
    that equation; what is loaded is active, listed once, and dependency-closed.
   */
  lemma LoadAllExact(manifests: seq<Manifest>, order: seq<Manifest>, f: Facts)
    requires Resolve(manifests).Ok? && Names(order) == Resolve(manifests).value
    requires forall m :: m in order ==> m.name in ByName(manifests) && ByName(manifests)[m.name] == m
    ensures var g, r := ByName(manifests), LoadAll(Registry(map[], []), order, f).0;
      && Tracks(r) && Closed(r.loadOrder, g) && IsOutcome(g, f, r.plugins.Keys)
      && forall s: set<Name> :: IsOutcome(g, f, s) ==> s == r.plugins.Keys
  {
    var g, r := ByName(manifests), LoadAll(Registry(map[], []), order, f).0;
    ResolveOrders(manifests);
    SortedManifestsInOrder(order, g);
    LoadPrefixOutcome(order, |order|, f, g);
    assert order[..|order|] == order;
    ListsEvery(order, g);
    forall s: set<Name> | s == r.plugins.Keys || IsOutcome(g, f, s)
      ensures IsOutcome(g, f, s) && s == r.plugins.Keys
    {
      if s == r.plugins.Keys {
        forall n | n in g ensures Solves(g[n], f, s) {
          var i :| 0 <= i < |order| && order[i] == g[n];
        }
      } else {
        OutcomeIsUnique(order, |order|, g, f, s, r);
        SameMembers(order, g, s, r.plugins.Keys);
      }
    }
    assert IsOutcome(g, f, r.plugins.Keys);
  }

  lemma ListsEvery(order: seq<Manifest>, g: Graph)
    requires forall n :: n in Names(order) <==> n in g
    requires forall m :: m in order ==> m.name in g && g[m.name] == m
    ensures forall n :: n in g ==> exists i :: 0 <= i < |order| && order[i] == g[n]
  {
    forall n | n in g ensures exists i :: 0 <= i < |order| && order[i] == g[n] {
      assert n in Names(order);
      var i :| 0 <= i < |order| && Names(order)[i] == n;
      assert order[i] in order;
    }
  }

  lemma SameMembers(order: seq<Manifest>, g: Graph, s: set<Name>, t: set<Name>)
    requires s <= g.Keys && t <= g.Keys
    requires forall n :: n in Names(order) <==> n in g
    requires forall j :: 0 <= j < |order| ==> (order[j].name in s <==> order[j].name in t)
    ensures s == t
  {
    forall n | n in g ensures n in s <==> n in t {
      assert n in Names(order);
      var i :| 0 <= i < |order| && Names(order)[i] == n;
      assert order[i].name == n;
    }
  }

  /** s is a solution of: a declared name loads iff it is loadable and its dependencies load. */
  ghost predicate IsOutcome(g: Graph, f: Facts, s: set<Name>) {
    s <= g.Keys && forall n :: n in g ==> Solves(g[n], f, s)
  }

  lemma {:induction false} OutcomeIsUnique(order: seq<Manifest>, i: nat, g: Graph, f: Facts, s: set<Name>, r: Registry)
    requires i <= |order| && InOrder(order) && IsOutcome(g, f, s) && LoadedExactly(order, |order|, r, f)
    requires forall m :: m in order ==> m.name in g && g[m.name] == m
    ensures forall j :: 0 <= j < i ==> (order[j].name in s <==> order[j].name in r.plugins)
  {
    if i > 0 {
      OutcomeIsUnique(order, i - 1, g, f, s, r);
      var m := order[i - 1];
      assert m in order && Solves(m, f, s) && Solves(m, f, r.plugins.Keys);
      forall d | d in m.dependencies ensures d in s <==> d in r.plugins {
        var k :| 0 <= k < i - 1 && Names(order[..i - 1])[k] == d;
        assert order[k].name == d;
      }
    }
  }

  /** The results list reports success for exactly the plugins that end up registered. */
  lemma {:induction false} ResultsReportLoads(order: seq<Manifest>, f: Facts, n: Name)
    ensures var (r, results) := LoadAll(Registry(map[], []), order, f);
      Loaded(n) in results <==> n in r.plugins
  {
    if order != [] {
      ResultsReportLoads(order[..|order| - 1], f, n);
    }
  }

  predicate Tried(f: Facts, n: Name) {
    n in f.enabled && n in f.entryPoint
  }

  /** What the result of m says, given which plugins end up loaded. */
  ghost predicate SaysWhy(m: Manifest, f: Facts, loaded: set<Name>, result: LoadResult) {
    && result.name == m.name && Tried(f, m.name)
    && match result
       case ImportFailed(_) => m.name !in f.imports
       case ConstructFailed(_) => m.name in f.imports && m.name !in f.constructs
       case DependenciesMissing(_, missing) =>
         && m.name in f.imports && m.name in f.constructs && missing != []
         && forall d :: NotLoaded(d) in missing <==> d in m.dependencies && d !in loaded
       case InitialiseFailed(_) =>
         m.name in f.imports && m.name in f.constructs && m.name !in f.initialises && forall d :: d in m.dependencies ==> d in loaded
       case Loaded(_) => Loadable(f, m.name) && forall d :: d in m.dependencies ==> d in loaded
  }

  lemma LoadNextSaysWhy(r: Registry, m: Manifest, f: Facts)
    requires Tracks(r) && m.name !in r.plugins
    ensures var results := LoadNext(r, m, f).1;
      if Tried(f, m.name) then |results| == 1 && SaysWhy(m, f, r.plugins.Keys, results[0]) else results == []
  {
  }

  /** The results so far are one for each plugin tried, in load order, each saying why by what is loaded so far. */
  ghost predicate ResultsFit(order: seq<Manifest>, f: Facts, loaded: set<Name>, results: seq<LoadResult>)
    decreases |order|
  {
    if order == [] then results == []
    else
      var m := order[|order| - 1];
      if Tried(f, m.name)
      then results != [] && SaysWhy(m, f, loaded, results[|results| - 1]) && ResultsFit(order[..|order| - 1], f, loaded, results[..|results| - 1])
      else ResultsFit(order[..|order| - 1], f, loaded, results)
  }

  /** Loading a name that is nobody's dependency among these changes no reason given. */
  lemma {:induction false} ReasonsStay(order: seq<Manifest>, f: Facts, loaded: set<Name>, n: Name, results: seq<LoadResult>)
    requires ResultsFit(order, f, loaded, results) && forall m, d :: m in order && d in m.dependencies ==> d != n
    ensures ResultsFit(order, f, loaded + {n}, results)
    decreases |order|
  {
    if order != [] {
      var m := order[|order| - 1];
      assert m in order;
      ReasonsStay(order[..|order| - 1], f, loaded, n, if Tried(f, m.name) then results[..|results| - 1] else results);
    }
  }

  lemma DependenciesDiffer(order: seq<Manifest>, i: nat)
    requires InOrder(order) && i < |order|
    ensures forall x, d :: x in order[..i + 1] && d in x.dependencies ==> d != order[i].name
  {
    forall x, d | x in order[..i + 1] && d in x.dependencies ensures d != order[i].name {
      var j :| 0 <= j <= i && order[j] == x;
      EarlierDependency(order, j, i, d);
    }
  }

  /** The results after the first i manifests are one for each plugin tried, in load order, each saying why. */
  ghost predicate ResultsFitAt(order: seq<Manifest>, i: nat, f: Facts)
    requires i <= |order|
  {
    var (r, results) := LoadAll(Registry(map[], []), order[..i], f);
    ResultsFit(order[..i], f, r.plugins.Keys, results)
  }

  /** What load_all reports: one result for each enabled plugin with an entry point, in load order, and each says the first thing that went wrong, a dependency being missing exactly when it did not load. */
  lemma {:induction false} ResultsSayWhy(order: seq<Manifest>, i: nat, f: Facts, g: Graph)
    requires i <= |order| && InOrder(order)
    requires forall m :: m in order ==> m.name in g && g[m.name] == m
    ensures ResultsFitAt(order, i, f)
  {
    if i > 0 {
      ResultsSayWhy(order, i - 1, f, g);
      ResultsNext(order, i - 1, f, g);
    }
  }

  lemma ResultsNext(order: seq<Manifest>, i: nat, f: Facts, g: Graph)
    requires i < |order| && InOrder(order) && ResultsFitAt(order, i, f)
    requires forall m :: m in order ==> m.name in g && g[m.name] == m
    ensures ResultsFitAt(order, i + 1, f)
  {
    var (r, results) := LoadAll(Registry(map[], []), order[..i], f);
    LoadPrefixOutcome(order, i, f, g);
    FreshName(order, i);
    DependenciesDiffer(order, i);
    assert order[..i + 1] == order[..i] + [order[i]] && order[..i + 1][..i] == order[..i];
    NextFits(order[..i], order[i], f, r, results);
  }

  lemma NextFits(before: seq<Manifest>, m: Manifest, f: Facts, r: Registry, results: seq<LoadResult>)
    requires Tracks(r) && m.name !in r.plugins && ResultsFit(before, f, r.plugins.Keys, results)
    requires forall x, d :: x in before + [m] && d in x.dependencies ==> d != m.name
    ensures ResultsFit(before + [m], f, LoadNext(r, m, f).0.plugins.Keys, results + LoadNext(r, m, f).1)
  {
    var (next, more) := LoadNext(r, m, f);
    var loaded := next.plugins.Keys;
    LoadNextSaysWhy(r, m, f);
    LoadNextOutcome(r, m, f);
    assert m in before + [m] && forall x :: x in before ==> x in before + [m];
    if next != r {
      ReasonsStay(before, f, r.plugins.Keys, m.name, results);
      assert loaded == r.plugins.Keys + {m.name};
    }
    if Tried(f, m.name) {
      FitsWith(before, m, f, loaded, results, more[0]);
    } else {
      FitsWithout(before, m, f, loaded, results);
    }
  }

  lemma FitsWith(before: seq<Manifest>, m: Manifest, f: Facts, loaded: set<Name>, results: seq<LoadResult>, result: LoadResult)
    requires ResultsFit(before, f, loaded, results) && SaysWhy(m, f, loaded, result)
    ensures ResultsFit(before + [m], f, loaded, results + [result])
  {
    var order, all := before + [m], results + [result];
    assert order[..|order| - 1] == before && all[..|all| - 1] == results;
  }

  lemma FitsWithout(before: seq<Manifest>, m: Manifest, f: Facts, loaded: set<Name>, results: seq<LoadResult>)
    requires ResultsFit(before, f, loaded, results) && !Tried(f, m.name)
    ensures ResultsFit(before + [m], f, loaded, results + [])
  {
    var order := before + [m];
    assert order[..|order| - 1] == before && results + [] == results;
  }

  // ----- the outcome of shutting down -----

  ghost predicate DependenciesActive(c: Call, g: Graph) {
    c.name in g && forall d :: d in g[c.name].dependencies ==> IsActive(c.states, d)
  }

  /** The first n plugins of the load order were called in reverse, each with its dependencies still active, and those left active are the ones that raised. */
  ghost predicate ShutDown(r: Registry, n: nat, last: map<Name, PluginState>, calls: seq<Call>, g: Graph, raises: set<Name>)
    requires n <= |r.loadOrder|
  {
    && |calls| == n
    && (forall i :: 0 <= i < n ==> calls[i].name == r.loadOrder[n - 1 - i])
    && (forall i :: 0 <= i < n ==> DependenciesActive(calls[i], g))
    && last.Keys == r.plugins.Keys
    && forall m :: m in last ==> (last[m].Active? <==> m in raises)
  }

  /**
    Shutting down a dependency-closed registry calls every plugin's shutdown once, in reverse load order; when
    p's is called every dependency of p is still active, whichever other shutdowns raise; and the plugins left
    active are exactly those whose shutdown raised.
   */
  lemma ShutdownRespectsDependencies(r: Registry, g: Graph, raises: set<Name>)
    requires Tracks(r) && Closed(r.loadOrder, g)
    ensures var (last, calls) := Shutdown(r.plugins, r.loadOrder, raises);
      ShutDown(r, |r.loadOrder|, last, calls, g, raises)
  {
    ShutdownPrefix(r, |r.loadOrder|, r.plugins, g, raises);
    assert r.loadOrder[..|r.loadOrder|] == r.loadOrder;
  }

  /** After the plugins from n on have been dealt with: the first n are active, of the others those that raised. */
  ghost predicate Midway(r: Registry, n: nat, plugins: map<Name, PluginState>, raises: set<Name>)
    requires n <= |r.loadOrder|
  {
    && Tracks(r) && plugins.Keys == r.plugins.Keys
    && (forall i :: 0 <= i < n ==> plugins[r.loadOrder[i]].Active?)
    && forall i :: n <= i < |r.loadOrder| ==> (plugins[r.loadOrder[i]].Active? <==> r.loadOrder[i] in raises)
  }

  lemma {:induction false} ShutdownPrefix(r: Registry, n: nat, plugins: map<Name, PluginState>, g: Graph, raises: set<Name>)
    requires n <= |r.loadOrder| && Midway(r, n, plugins, raises) && Closed(r.loadOrder, g)
    ensures var (last, calls) := Shutdown(plugins, r.loadOrder[..n], raises); ShutDown(r, n, last, calls, g, raises)
  {
    if n == 0 {
      forall m | m in plugins ensures plugins[m].Active? <==> m in raises {
        var i :| 0 <= i < |r.loadOrder| && r.loadOrder[i] == m;
      }
    } else {
      var name := r.loadOrder[n - 1];
      var after := if name in raises then plugins else plugins[name := Disabled];
      MidwayNext(r, n, plugins, raises);
      ShutdownPrefix(r, n - 1, after, g, raises);
      EarlierStillActive(r, n, plugins, g);
      ShutdownUnfolds(plugins, r.loadOrder, n, raises);
      var (last, calls) := Shutdown(after, r.loadOrder[..n - 1], raises);
      CallFirst(r, n, last, calls, Call(name, plugins), g, raises);
    }
  }

  lemma CallFirst(r: Registry, n: nat, last: map<Name, PluginState>, calls: seq<Call>, first: Call, g: Graph, raises: set<Name>)
    requires 0 < n <= |r.loadOrder| && ShutDown(r, n - 1, last, calls, g, raises)
    requires first.name == r.loadOrder[n - 1] && DependenciesActive(first, g)
    ensures ShutDown(r, n, last, [first] + calls, g, raises)
  {
  }

  lemma MidwayNext(r: Registry, n: nat, plugins: map<Name, PluginState>, raises: set<Name>)
    requires 0 < n <= |r.loadOrder| && Midway(r, n, plugins, raises)
    ensures var name := r.loadOrder[n - 1];
      Midway(r, n - 1, if name in raises then plugins else plugins[name := Disabled], raises)
  {
  }

  lemma ShutdownUnfolds(plugins: map<Name, PluginState>, order: seq<Name>, n: nat, raises: set<Name>)
    requires 0 < n <= |order| && IsActive(plugins, order[n - 1])
    ensures var name := order[n - 1];
      var (last, calls) := Shutdown(if name in raises then plugins else plugins[name := Disabled], order[..n - 1], raises);
      Shutdown(plugins, order[..n], raises) == (last, [Call(name, plugins)] + calls)
  {
    assert order[..n][..n - 1] == order[..n - 1];
  }

  lemma EarlierStillActive(r: Registry, n: nat, plugins: map<Name, PluginState>, g: Graph)
    requires Tracks(r) && Closed(r.loadOrder, g) && 0 < n <= |r.loadOrder| && plugins.Keys == r.plugins.Keys
    requires forall i :: 0 <= i < n ==> plugins[r.loadOrder[i]].Active?
    ensures DependenciesActive(Call(r.loadOrder[n - 1], plugins), g)
  {
    forall d | d in g[r.loadOrder[n - 1]].dependencies ensures IsActive(plugins, d) {
      var k :| 0 <= k < n - 1 && r.loadOrder[..n - 1][k] == d;
    }
  }

  /** What a shutdown in some order leaves and whom it calls, said without running it. */
  ghost predicate ShutsDown(plugins: map<Name, PluginState>, order: seq<Name>, raises: set<Name>, last: map<Name, PluginState>, calls: seq<Call>) {
    && (forall n :: Called(calls, n) <==> n in order && IsActive(plugins, n))
    && (forall i, j :: 0 <= i < j < |calls| ==> calls[i].name != calls[j].name)
    && last.Keys == plugins.Keys
    && forall n :: n in plugins ==>
      last[n] == if n in order && plugins[n].Active? && n !in raises then Disabled else plugins[n]
  }

  /**
    Shutting down from any state: exactly the plugins of the load order that are active are called, each once, and
    afterwards those whose shutdown did not raise are disabled and every other is as it was; so a second
    shutdown_all calls exactly those that raised.
   */
  lemma {:induction false} ShutdownCallsTheActive(plugins: map<Name, PluginState>, order: seq<Name>, raises: set<Name>)
    requires Distinct(order)
    ensures var (last, calls) := Shutdown(plugins, order, raises); ShutsDown(plugins, order, raises, last, calls)
    decreases |order|
  {
    if order != [] {
      var name, earlier := order[|order| - 1], order[..|order| - 1];
      assert order == earlier + [name] && name !in earlier;
      if IsActive(plugins, name) {
        var after := if name in raises then plugins else plugins[name := Disabled];
        ShutdownCallsTheActive(after, earlier, raises);
        var (last, calls) := Shutdown(after, earlier, raises);
        CallsOneMore(plugins, earlier, name, raises, last, calls);
      } else {
        ShutdownCallsTheActive(plugins, earlier, raises);
        var (last, calls) := Shutdown(plugins, earlier, raises);
        CallsNoMore(plugins, earlier, name, raises, last, calls);
      }
    }
  }

  lemma CallsOneMore(
      plugins: map<Name, PluginState>, earlier: seq<Name>, name: Name, raises: set<Name>, last: map<Name, PluginState>, calls: seq<Call>)
    requires IsActive(plugins, name) && name !in earlier
    requires ShutsDown(if name in raises then plugins else plugins[name := Disabled], earlier, raises, last, calls)
    ensures ShutsDown(plugins, earlier + [name], raises, last, [Call(name, plugins)] + calls)
  {
    CalledFirst(Call(name, plugins), calls);
    assert !Called(calls, name);
  }

  lemma CallsNoMore(
      plugins: map<Name, PluginState>, earlier: seq<Name>, name: Name, raises: set<Name>, last: map<Name, PluginState>, calls: seq<Call>)
    requires !IsActive(plugins, name) && ShutsDown(plugins, earlier, raises, last, calls)
    ensures ShutsDown(plugins, earlier + [name], raises, last, calls)
  {
  }

  ghost predicate Called(calls: seq<Call>, n: Name) {
    exists i :: 0 <= i < |calls| && calls[i].name == n
  }

  lemma CalledFirst(first: Call, calls: seq<Call>)
    ensures forall n :: Called([first] + calls, n) <==> n == first.name || Called(calls, n)
  {
    var all := [first] + calls;
    forall n ensures Called(all, n) <==> n == first.name || Called(calls, n) {
      if n == first.name {
        assert all[0].name == n;
      }
      if Called(calls, n) {
        var i :| 0 <= i < |calls| && calls[i].name == n;
        assert all[i + 1].name == n;
      }
    }
  }
}
