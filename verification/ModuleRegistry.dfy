/** The module registry of `pkg/module/registry.go`: registration, dependency resolution with
    Kahn's algorithm over a re-sorted ready queue, ordered start-up and reverse shutdown. */
module ModuleRegistry {
  import opened Shared
  import opened StringOrder
  import opened DependencyGraph

  datatype Manifest = Manifest(name: string, version: string, dependsOn: seq<string>)

  /** A module is known to the registry through its (static) manifest. */
  datatype Module = Module(manifest: Manifest)

  datatype RegistryError =
    | InvalidManifest
    | DuplicateModule(name: string)
    | ModuleNotFound(name: string, dependency: string)
    | CircularDependency(resolved: nat, total: nat)
    | InitFailed(name: string)

  type Modules = map<string, Module>

  function GraphOf(modules: Modules): Graph {
    map n | n in modules :: modules[n].manifest.dependsOn
  }

  /** `r.modules` is keyed by the modules' own, non-empty names. */
  ghost predicate WellKeyed(modules: Modules) {
    forall n :: n in modules ==> modules[n].manifest.name == n && n != ""
  }

  function NamesOf(order: seq<Module>): (names: seq<string>)
    ensures |names| == |order| && forall i :: 0 <= i < |order| ==> names[i] == order[i].manifest.name
  {
    seq(|order|, i requires 0 <= i < |order| => order[i].manifest.name)
  }

  /** So many modules can be put in order before nothing is ready any more. */
  ghost predicate ResolvesAtMost(g: Graph, n: nat) {
    exists names :: LeastReadyFirst(g, names) && (forall m :: !Ready(g, names, m)) && n == |names|
  }

  /** What resolution must answer, for every set of registered modules. */
  ghost predicate ResolutionSpec(modules: Modules, r: Result<seq<Module>, RegistryError>) {
    var g := GraphOf(modules);
    match r
    case Ok(order) =>
      && Closed(g) && !Cyclic(g)
      && (forall m :: m in order ==> m.manifest.name in modules && modules[m.manifest.name] == m)
      && IsSmallestTopological(g, NamesOf(order))
    case Err(ModuleNotFound(n, d)) => n in g && d in g[n] && d !in g
    case Err(CircularDependency(resolved, total)) =>
      Closed(g) && Cyclic(g) && resolved < total == |modules| && ResolvesAtMost(g, resolved)
    case Err(_) => false
  }

  /** How many entries of `deps`, with repetitions, are not yet resolved. */
  ghost function Pending(deps: seq<string>, done: set<string>): nat {
    if deps == [] then 0
    else (if deps[0] in done then 0 else 1) + Pending(deps[1..], done)
  }

  lemma {:induction false} PendingNone(deps: seq<string>)
    ensures Pending(deps, {}) == |deps|
  {
    if deps != [] { PendingNone(deps[1..]); }
  }

  lemma {:induction false} PendingZero(deps: seq<string>, done: set<string>)
    ensures Pending(deps, done) == 0 <==> forall d :: d in deps ==> d in done
  {
    if deps != [] {
      PendingZero(deps[1..], done);
      assert deps == [deps[0]] + deps[1..];
    }
  }

  lemma {:induction false} PendingDrop(deps: seq<string>, done: set<string>, c: string)
    requires c !in done
    ensures Pending(deps, done + {c}) == Pending(deps, done) - multiset(deps)[c]
  {
    if deps != [] {
      PendingDrop(deps[1..], done, c);
      assert deps == [deps[0]] + deps[1..];
    }
  }

  /** `inDegree` and `dependents` describe exactly the dependency entries in `seen`. */
  ghost predicate Recorded(seen: Graph, inDegree: map<string, int>, dependents: map<string, seq<string>>) {
    && inDegree.Keys == seen.Keys
    && (forall n :: n in seen ==> inDegree[n] == |seen[n]|)
    && forall d, n :: multiset(Lookup(dependents, d))[n] == if n in seen then multiset(seen[n])[d] else 0
  }

  lemma RecordedKeys(seen: Graph, inDegree: map<string, int>, dependents: map<string, seq<string>>)
    requires Recorded(seen, inDegree, dependents)
    ensures inDegree.Keys == seen.Keys
  {
  }

  lemma RecordOne(seen: Graph, inDegree: map<string, int>, dependents: map<string, seq<string>>,
                  name: string, dep: string)
    requires Recorded(seen, inDegree, dependents) && name in seen
    ensures Recorded(seen[name := seen[name] + [dep]],
                     inDegree[name := inDegree[name] + 1],
                     dependents[dep := Lookup(dependents, dep) + [name]])
  {
    var seen' := seen[name := seen[name] + [dep]];
    var dependents' := dependents[dep := Lookup(dependents, dep) + [name]];
    forall d, n ensures multiset(Lookup(dependents', d))[n] == if n in seen' then multiset(seen'[n])[d] else 0 {
      assert multiset(Lookup(dependents, d))[n] == if n in seen then multiset(seen[n])[d] else 0;
      CountSnoc(Lookup(dependents, dep), name, n);
      CountSnoc(seen[name], dep, d);
    }
  }

  lemma CountSnoc(s: seq<string>, x: string, y: string)
    ensures multiset(s + [x])[y] == multiset(s)[y] + if x == y then 1 else 0
  {
  }

  /** Records the dependencies of one module, stopping at the first unregistered one. */
  method RecordModule(g: Graph, name: string, ghost seen: Graph,
                      inDegree0: map<string, int>, dependents0: map<string, seq<string>>)
    returns (missing: Option<string>, inDegree: map<string, int>, dependents: map<string, seq<string>>)
    requires name in g && Recorded(seen[name := []], inDegree0, dependents0)
    ensures missing.Some? ==> missing.value in g[name] && missing.value !in g
    ensures missing.None? ==> forall d :: d in g[name] ==> d in g
    ensures missing.None? ==> Recorded(seen[name := g[name]], inDegree, dependents)
  {
    hide Recorded, Lookup;
    missing, inDegree, dependents := None, inDegree0, dependents0;
    var i := 0;
    while i < |g[name]|
      invariant 0 <= i <= |g[name]|
      invariant Recorded(seen[name := g[name][..i]], inDegree, dependents)
      invariant forall d :: d in g[name][..i] ==> d in g
    {
      var dep := g[name][i];
      if dep !in g {
        missing := Some(dep);
        return;
      }
      ghost var before := seen[name := g[name][..i]];
      RecordOne(before, inDegree, dependents, name, dep);
      RecordedKeys(before, inDegree, dependents);
      assert g[name][..i] + [dep] == g[name][..i + 1];
      assert before[name := before[name] + [dep]] == seen[name := g[name][..i + 1]];
      dependents := dependents[dep := Lookup(dependents, dep) + [name]];
      inDegree := inDegree[name := inDegree[name] + 1];
      i := i + 1;
    }
    assert g[name][..i] == g[name];
  }

  lemma NothingRecorded(g: Graph)
    ensures Recorded(map n | n in g :: [], map n | n in g :: 0, map[])
  {
  }

  /** Builds the in-degrees and reverse edges, visiting the modules in any order. */
  method BuildGraph(g: Graph)
    returns (missing: Option<(string, string)>, inDegree: map<string, int>, dependents: map<string, seq<string>>)
    ensures missing.Some? ==> missing.value.0 in g && missing.value.1 in g[missing.value.0] && missing.value.1 !in g
    ensures missing.None? ==> Closed(g) && Recorded(g, inDegree, dependents)
  {
    missing, dependents := None, map[];
    inDegree := map n | n in g :: 0;
    ghost var seen: Graph := map n | n in g :: [];
    assert Recorded(seen, inDegree, dependents) by { NothingRecorded(g); }
    hide Recorded;
    var rest := g.Keys;
    while rest != {}
      invariant rest <= g.Keys == seen.Keys
      invariant Recorded(seen, inDegree, dependents)
      invariant forall n :: n in g ==> seen[n] == if n in rest then [] else g[n]
      invariant forall n, d :: n in g && n !in rest && d in g[n] ==> d in g
    {
      var name :| name in rest;
      assert seen == seen[name := []];
      var absent;
      absent, inDegree, dependents := RecordModule(g, name, seen, inDegree, dependents);
      if absent.Some? {
        missing := Some((name, absent.value));
        return;
      }
      seen := seen[name := g[name]];
      rest := rest - {name};
    }
    assert seen == g;
  }

  /** In-degrees count what is still unresolved, dependents list the reverse edges. */
  ghost predicate InDegreesExact(g: Graph, inDegree: map<string, int>, done: seq<string>) {
    inDegree.Keys == g.Keys && forall n :: n in g ==> inDegree[n] == Pending(g[n], Elems(done))
  }

  /** The queue is the sorted list of unresolved modules whose in-degree is zero. */
  ghost predicate QueueExact(queue: seq<string>, inDegree: map<string, int>, done: seq<string>) {
    && Sorted(queue)
    && forall n :: multiset(queue)[n] == if n in inDegree && n !in done && inDegree[n] == 0 then 1 else 0
  }

  lemma QueueIsReady(g: Graph, queue: seq<string>, inDegree: map<string, int>, done: seq<string>, n: string)
    requires InDegreesExact(g, inDegree, done) && QueueExact(queue, inDegree, done)
    ensures n in queue <==> Ready(g, done, n)
  {
    if n in g { PendingZero(g[n], Elems(done)); }
    assert n in queue <==> n in multiset(queue);
  }

  /** The first zero-in-degree queue, collected in any order and then sorted. */
  method InitialQueue(inDegree: map<string, int>) returns (queue: seq<string>)
    ensures QueueExact(queue, inDegree, [])
  {
    queue := [];
    var rest := inDegree.Keys;
    while rest != {}
      invariant rest <= inDegree.Keys
      invariant forall n :: multiset(queue)[n] == if n in inDegree && n !in rest && inDegree[n] == 0 then 1 else 0
    {
      var name :| name in rest;
      if inDegree[name] == 0 { queue := queue + [name]; }
      rest := rest - {name};
    }
    queue := Sort(queue);
  }

  /** Decrementing one in-degree and enqueueing on zero keeps the queue exact. */
  method Decrement(inDegree0: map<string, int>, queue0: seq<string>, ghost done: seq<string>, name: string)
    returns (inDegree: map<string, int>, queue: seq<string>)
    requires name in inDegree0 && inDegree0[name] > 0 && name !in done
    requires QueueExact(queue0, inDegree0, done)
    ensures inDegree == inDegree0[name := inDegree0[name] - 1]
    ensures QueueExact(queue, inDegree, done)
  {
    inDegree, queue := inDegree0[name := inDegree0[name] - 1], queue0;
    if inDegree[name] == 0 {
      queue := Sort(queue + [name]);
    }
  }

  /** In-degrees after the part `released` of the edges of the current module has been processed. */
  ghost predicate PartlyReleased(g: Graph, inDegree: map<string, int>, done: seq<string>, released: seq<string>) {
    inDegree.Keys == g.Keys && forall n :: n in g ==> inDegree[n] == Pending(g[n], Elems(done)) - multiset(released)[n]
  }

  /** `ds` lists, with multiplicity, the modules that depend on `curr`. */
  ghost predicate AreDependents(g: Graph, curr: string, ds: seq<string>) {
    forall n :: multiset(ds)[n] == if n in g then multiset(g[n])[curr] else 0
  }

  ghost predicate ResolvedHaveNoPending(g: Graph, done: seq<string>) {
    forall n :: n in done && n in g ==> Pending(g[n], Elems(done)) == 0
  }

  /** The edges of `curr` were all still pending, so each decrement starts above zero. */
  lemma StillPending(g: Graph, done: seq<string>, curr: string, ds: seq<string>, j: nat)
    requires Ready(g, done, curr) && j < |ds|
    requires ResolvedHaveNoPending(g, done) && AreDependents(g, curr, ds)
    ensures ds[j] in g && ds[j] !in done + [curr]
    ensures Pending(g[ds[j]], Elems(done)) > multiset(ds[..j])[ds[j]]
  {
    var name := ds[j];
    assert name in multiset(ds);
    PendingDrop(g[name], Elems(done), curr);
    PendingZero(g[curr], Elems(done));
    assert ds == ds[..j] + [name] + ds[j + 1..];
  }

  lemma AllReleased(g: Graph, inDegree: map<string, int>, done: seq<string>, curr: string, ds: seq<string>)
    requires Ready(g, done, curr) && AreDependents(g, curr, ds) && PartlyReleased(g, inDegree, done, ds)
    ensures InDegreesExact(g, inDegree, done + [curr])
  {
    assert Elems(done + [curr]) == Elems(done) + {curr};
    forall n | n in g ensures inDegree[n] == Pending(g[n], Elems(done + [curr])) {
      PendingDrop(g[n], Elems(done), curr);
    }
  }

  lemma ReleasedOneMore(g: Graph, inDegree: map<string, int>, done: seq<string>, ds: seq<string>, j: nat)
    requires j < |ds| && PartlyReleased(g, inDegree, done, ds[..j]) && ds[j] in g
    ensures PartlyReleased(g, inDegree[ds[j] := inDegree[ds[j]] - 1], done, ds[..j + 1])
  {
    assert ds[..j + 1] == ds[..j] + [ds[j]];
  }

  /** Releases the dependents of `curr`, re-sorting the queue after each addition. */
  method Release(ghost g: Graph, ghost done: seq<string>, ghost curr: string, ds: seq<string>,
                 inDegree0: map<string, int>, queue0: seq<string>)
    returns (inDegree: map<string, int>, queue: seq<string>)
    requires InDegreesExact(g, inDegree0, done) && Ready(g, done, curr)
    requires ResolvedHaveNoPending(g, done) && AreDependents(g, curr, ds)
    requires QueueExact(queue0, inDegree0, done + [curr])
    ensures InDegreesExact(g, inDegree, done + [curr]) && QueueExact(queue, inDegree, done + [curr])
  {
    inDegree, queue := inDegree0, queue0;
    for j := 0 to |ds|
      invariant PartlyReleased(g, inDegree, done, ds[..j])
      invariant QueueExact(queue, inDegree, done + [curr])
    {
      StillPending(g, done, curr, ds, j);
      ReleasedOneMore(g, inDegree, done, ds, j);
      inDegree, queue := Decrement(inDegree, queue, done + [curr], ds[j]);
    }
    assert ds[..|ds|] == ds;
    AllReleased(g, inDegree, done, curr, ds);
  }

  lemma PopExact(queue: seq<string>, inDegree: map<string, int>, done: seq<string>)
    requires QueueExact(queue, inDegree, done) && queue != []
    ensures QueueExact(queue[1..], inDegree, done + [queue[0]])
  {
    assert queue == [queue[0]] + queue[1..];
    assert queue[0] in multiset(queue);
  }

  lemma PopIsLeastReady(g: Graph, queue: seq<string>, inDegree: map<string, int>, done: seq<string>)
    requires InDegreesExact(g, inDegree, done) && QueueExact(queue, inDegree, done) && queue != []
    ensures Ready(g, done, queue[0]) && forall n :: Ready(g, done, n) ==> Leq(queue[0], n)
  {
    QueueIsReady(g, queue, inDegree, done, queue[0]);
    forall n | Ready(g, done, n) ensures Leq(queue[0], n) {
      QueueIsReady(g, queue, inDegree, done, n);
      LeqTotal(n, n);
    }
  }

  lemma ExtendGreedy(g: Graph, done: seq<string>, curr: string)
    requires LeastReadyFirst(g, done)
    requires Ready(g, done, curr) && forall n :: Ready(g, done, n) ==> Leq(curr, n)
    ensures LeastReadyFirst(g, done + [curr])
  {
    var s := done + [curr];
    forall k | 0 <= k < |s|
      ensures Ready(g, s[..k], s[k]) && forall n :: Ready(g, s[..k], n) ==> Leq(s[k], n)
    {
      assert s[..k] == done[..k];
      assert done[..|done|] == done;
    }
  }

  lemma ResolvedStay(g: Graph, done: seq<string>, curr: string)
    requires ResolvedHaveNoPending(g, done) && Ready(g, done, curr)
    ensures ResolvedHaveNoPending(g, done + [curr])
  {
    forall n | n in done + [curr] && n in g ensures Pending(g[n], Elems(done + [curr])) == 0 {
      PendingZero(g[n], Elems(done));
      PendingZero(g[n], Elems(done + [curr]));
    }
  }

  lemma StartFacts(g: Graph, inDegree: map<string, int>, dependents: map<string, seq<string>>)
    requires Recorded(g, inDegree, dependents)
    ensures InDegreesExact(g, inDegree, []) && LeastReadyFirst(g, []) && ResolvedHaveNoPending(g, [])
    ensures forall c :: AreDependents(g, c, Lookup(dependents, c))
  {
    assert Elems<string>([]) == {};
    forall n | n in g { PendingNone(g[n]); }
  }

  /** The resolution loop: pop the least ready name, append it, release its dependents. */
  method Drain(g: Graph, inDegree0: map<string, int>, dependents: map<string, seq<string>>, queue0: seq<string>)
    returns (names: seq<string>)
    requires Recorded(g, inDegree0, dependents)
    requires QueueExact(queue0, inDegree0, [])
    ensures LeastReadyFirst(g, names) && forall n :: !Ready(g, names, n)
  {
    names := [];
    StartFacts(g, inDegree0, dependents);
    hide InDegreesExact, QueueExact, LeastReadyFirst, ResolvedHaveNoPending, Recorded, AreDependents;
    var inDegree, queue := inDegree0, queue0;
    while queue != []
      invariant InDegreesExact(g, inDegree, names) && QueueExact(queue, inDegree, names)
      invariant LeastReadyFirst(g, names) && ResolvedHaveNoPending(g, names)
      decreases g.Keys - Elems(names)
    {
      var curr := queue[0];
      PopIsLeastReady(g, queue, inDegree, names);
      PopExact(queue, inDegree, names);
      ExtendGreedy(g, names, curr);
      ResolvedStay(g, names, curr);
      ghost var before := names;
      names := names + [curr];
      inDegree, queue := Release(g, before, curr, Lookup(dependents, curr), inDegree, queue[1..]);
      assert curr in Elems(names) && Elems(before) <= Elems(names);
    }
    forall n ensures !Ready(g, names, n) {
      QueueIsReady(g, queue, inDegree, names, n);
    }
  }

  /** A greedy run that can go no further is complete exactly when the graph has no cycle. */
  lemma CompleteIffAcyclic(g: Graph, names: seq<string>)
    requires Closed(g) && LeastReadyFirst(g, names) && forall n :: !Ready(g, names, n)
    ensures NoDup(names) && Elems(names) <= g.Keys && |names| <= |g|
    ensures |names| == |g| <==> !Cyclic(g)
    ensures |names| == |g| ==> IsSmallestTopological(g, names)
  {
    forall i, j | 0 <= i < j < |names| ensures names[i] != names[j] {
      assert Ready(g, names[..j], names[j]) && names[i] in names[..j];
    }
    forall x | x in names ensures x in g {
      var k :| 0 <= k < |names| && names[k] == x;
      assert Ready(g, names[..k], x);
    }
    NoDupLength(names);
    SubsetSize(Elems(names), g.Keys);
    if Elems(names) == g.Keys {
      CompleteGreedyIsTopological(g, names);
      if Cyclic(g) { CyclicHasNoOrder(g, names); }
    } else {
      var x :| x in g.Keys && x !in Elems(names);
      assert x in g.Keys - Elems(names);
      StuckIsCyclic(g, names);
      if |names| == |g| { EqualSize(Elems(names), g.Keys); }
    }
  }

  lemma EqualSize(a: set<string>, b: set<string>)
    requires a <= b && |a| == |b|
    ensures a == b
  {
    assert b == a + (b - a);
  }

  function Select(modules: Modules, names: seq<string>): (order: seq<Module>)
    requires WellKeyed(modules) && Elems(names) <= modules.Keys
    ensures NamesOf(order) == names
    ensures forall m :: m in order ==> m.manifest.name in modules && modules[m.manifest.name] == m
  {
    assert forall n :: n in names ==> n in Elems(names);
    seq(|names|, i requires 0 <= i < |names| => modules[names[i]])
  }

  /** Every registered module once, each after everything in its `DependsOn` list. */
  ghost predicate DependenciesFirst(modules: Modules, order: seq<Module>) {
    && |order| == |modules|
    && (forall n :: n in modules ==> modules[n] in order)
    && forall i, d :: 0 <= i < |order| && d in order[i].manifest.dependsOn ==>
         d in modules && modules[d] in order[..i]
  }

  /** Some registered module lists a dependency that is not registered. */
  ghost predicate HasMissing(modules: Modules) {
    exists n, d :: n in modules && d in modules[n].manifest.dependsOn && d !in modules
  }

  lemma ResolvedMeaning(modules: Modules, r: Result<seq<Module>, RegistryError>)
    requires WellKeyed(modules) && ResolutionSpec(modules, r)
    ensures r.Ok? ==> DependenciesFirst(modules, r.value)
    ensures r.Err? && r.error.ModuleNotFound? <==> HasMissing(modules)
  {
    var g := GraphOf(modules);
    if HasMissing(modules) {
      var n, d :| n in modules && d in modules[n].manifest.dependsOn && d !in modules;
      assert n in g && d in g[n] && d !in g;
    }
    if r.Err? && r.error.ModuleNotFound? {
      assert r.error.dependency in modules[r.error.name].manifest.dependsOn;
    }
    if r.Ok? { OrderMeaning(modules, r.value); }
  }

  lemma OrderMeaning(modules: Modules, order: seq<Module>)
    requires WellKeyed(modules) && IsTopological(GraphOf(modules), NamesOf(order))
    requires forall m :: m in order ==> m.manifest.name in modules && modules[m.manifest.name] == m
    ensures DependenciesFirst(modules, order)
  {
    var g, names := GraphOf(modules), NamesOf(order);
    NoDupLength(names);
    assert g.Keys == modules.Keys && |names| == |modules.Keys| == |modules|;
    hide NoDup;
    forall n | n in modules ensures modules[n] in order {
      assert n in Elems(names);
      var i :| 0 <= i < |names| && names[i] == n;
      assert order[i] in order;
    }
    forall i, d | 0 <= i < |order| && d in order[i].manifest.dependsOn
      ensures d in modules && modules[d] in order[..i]
    {
      assert order[i] in order && d in g[names[i]];
      var j :| 0 <= j < i && names[j] == d;
      assert order[j] in order && order[..i][j] == order[j];
    }
  }

  /** The names whose `Shutdown` fails, in order. */
  function Failing(names: seq<string>, stopOk: string -> bool): (failed: seq<string>)
    ensures forall n :: n in failed <==> n in names && !stopOk(n)
  {
    if names == [] then [] else
      var init, last := Failing(names[..|names| - 1], stopOk), names[|names| - 1];
      assert names == names[..|names| - 1] + [last];
      if stopOk(last) then init else init + [last]
  }

  class Registry {
    var modules: Modules
    var order: seq<Module>

    ghost predicate Valid()
      reads this
    {
      WellKeyed(modules)
    }

    constructor ()
      ensures Valid() && modules == map[] && order == []
    {
      modules, order := map[], [];
    }

    /** `Register`; a nil module is `None`. */
    method Register(m: Option<Module>) returns (err: Option<RegistryError>)
      requires Valid()
      modifies this`modules
      ensures Valid()
      ensures m.None? || m.value.manifest.name == "" <==> err == Some(InvalidManifest)
      ensures err.None? <==> m.Some? && m.value.manifest.name != "" && m.value.manifest.name !in old(modules)
      ensures err != Some(InvalidManifest) ==>
        (m.value.manifest.name in old(modules) <==> err == Some(DuplicateModule(m.value.manifest.name)))
      ensures modules == if err.None? then old(modules)[m.value.manifest.name := m.value] else old(modules)
    {
      if m.None? || m.value.manifest.name == "" { return Some(InvalidManifest); }
      var name := m.value.manifest.name;
      if name in modules { return Some(DuplicateModule(name)); }
      modules := modules[name := m.value];
      return None;
    }

    method ResolveOrderLocked() returns (r: Result<seq<Module>, RegistryError>)
      requires Valid()
      ensures ResolutionSpec(modules, r)
      ensures r.Ok? ==> DependenciesFirst(modules, r.value)
      ensures r.Err? && r.error.ModuleNotFound? <==> HasMissing(modules)
    {
      var g := GraphOf(modules);
      hide Closed, Cyclic, IsSmallestTopological, Recorded, QueueExact, LeastReadyFirst, Ready, NoDup;
      var missing, inDegree, dependents := BuildGraph(g);
      hide DependenciesFirst, HasMissing;
      if missing.Some? {
        r := Err(ModuleNotFound(missing.value.0, missing.value.1));
        ResolvedMeaning(modules, r);
        return r;
      }
      var queue := InitialQueue(inDegree);
      var names := Drain(g, inDegree, dependents, queue);
      CompleteIffAcyclic(g, names);
      assert ResolvesAtMost(g, |names|);
      hide ResolvesAtMost;
      assert g.Keys == modules.Keys;
      r := if |names| != |modules| then Err(CircularDependency(|names|, |modules|)) else Ok(Select(modules, names));
      ResolvedMeaning(modules, r);
    }

    method ResolveOrder() returns (r: Result<seq<Module>, RegistryError>)
      requires Valid()
      modifies this`order
      ensures ResolutionSpec(modules, r)
      ensures order == if r.Ok? then r.value else old(order)
    {
      r := ResolveOrderLocked();
      if r.Ok? { order := r.value; }
    }

    /** `InitAll`; `initOk(name)` is the outcome of that module's `Init`. `started` lists the
        modules whose `Init` was called, in call order. */
    method InitAll(initOk: string -> bool) returns (err: Option<RegistryError>, started: seq<string>)
      requires Valid()
      modifies this`order
      ensures err.Some? && !err.value.InitFailed? ==>
        ResolutionSpec(modules, Err(err.value)) && started == [] && order == old(order)
      ensures err.None? || err.value.InitFailed? ==> ResolutionSpec(modules, Ok(order))
      ensures err.None? ==> started == NamesOf(order) && forall n :: n in started ==> initOk(n)
      ensures err.Some? && err.value.InitFailed? ==>
        && started <= NamesOf(order) && started != [] && started[|started| - 1] == err.value.name
        && !initOk(err.value.name) && forall n :: n in started[..|started| - 1] ==> initOk(n)
    {
      hide DependenciesFirst, HasMissing;
      err, started := None, [];
      var r := ResolveOrderLocked();
      hide ResolutionSpec;
      if r.Err? { return Some(r.error), []; }
      order := r.value;
      for i := 0 to |order|
        invariant started == NamesOf(order)[..i] && forall n :: n in started ==> initOk(n)
      {
        ghost var before := started;
        started := started + [order[i].manifest.name];
        assert started == NamesOf(order)[..i + 1];
        if !initOk(order[i].manifest.name) {
          assert started[..|started| - 1] == before;
          return Some(InitFailed(order[i].manifest.name)), started;
        }
      }
    }

    /** `ShutdownAll`; every module is asked to stop, in reverse order, whatever the others answer. */
    method ShutdownAll(stopOk: string -> bool) returns (failed: seq<string>, stopped: seq<string>)
      ensures |stopped| == |order|
      ensures forall i :: 0 <= i < |order| ==> stopped[i] == order[|order| - 1 - i].manifest.name
      ensures failed == Failing(stopped, stopOk)
    {
      failed, stopped := [], [];
      var i := |order|;
      while i > 0
        invariant 0 <= i <= |order| && |stopped| == |order| - i
        invariant forall j :: 0 <= j < |stopped| ==> stopped[j] == order[|order| - 1 - j].manifest.name
        invariant failed == Failing(stopped, stopOk)
      {
        i := i - 1;
        assert (stopped + [order[i].manifest.name])[..|stopped|] == stopped;
        stopped := stopped + [order[i].manifest.name];
        if !stopOk(order[i].manifest.name) { failed := failed + [order[i].manifest.name]; }
      }
    }
  }

  /** Resolution is deterministic: any two successful answers for the same modules coincide, and
      success, missing dependency and cycle are mutually exclusive. */
  lemma ResolutionIsDeterministic(modules: Modules, r1: Result<seq<Module>, RegistryError>,
                                  r2: Result<seq<Module>, RegistryError>)
    requires ResolutionSpec(modules, r1) && ResolutionSpec(modules, r2)
    ensures r1.Ok? <==> Closed(GraphOf(modules)) && !Cyclic(GraphOf(modules))
    ensures r1.Err? && r1.error.CircularDependency? <==> Closed(GraphOf(modules)) && Cyclic(GraphOf(modules))
    ensures r1.Ok? <==> r2.Ok?
    ensures r1.Ok? ==> r1 == r2
  {
    forall r | r in {r1, r2} && r.Err? && r.error.ModuleNotFound? ensures !Closed(GraphOf(modules)) {
      assert r.error.dependency in GraphOf(modules)[r.error.name];
    }
    if r1.Ok? && r2.Ok? {
      SmallestIsUnique(GraphOf(modules), NamesOf(r1.value), NamesOf(r2.value));
      var a, b := r1.value, r2.value;
      assert |a| == |NamesOf(a)| == |NamesOf(b)| == |b|;
      forall i | 0 <= i < |a| ensures a[i] == b[i] {
        assert NamesOf(a)[i] == NamesOf(b)[i];
        assert a[i] in a && b[i] in b;
      }
      assert a == b;
    }
  }

  /** Shutting down in reverse order stops every module before anything it depends on. */
  lemma DependentsStopFirst(g: Graph, names: seq<string>, stopped: seq<string>, i: nat, d: string)
    requires IsTopological(g, names) && |stopped| == |names|
    requires forall k :: 0 <= k < |names| ==> stopped[k] == names[|names| - 1 - k]
    requires i < |stopped| && d in g[stopped[i]]
    ensures d in stopped[i + 1..]
  {
    var k := |names| - 1 - i;
    assert names[k] == stopped[i];
    var j :| 0 <= j < k && names[j] == d;
    assert stopped[|names| - 1 - j] == d;
  }

  // ---- Shutting down after a failed start ----

  /** `started` is what `InitAll` leaves behind when it works through `names`: everything, or the
      names up to and including the first whose `Init` fails. */
  ghost predicate StartedSpec(names: seq<string>, initOk: string -> bool, started: seq<string>) {
    && started <= names && (started == [] ==> names == [])
    && (forall n :: n in started[..Before(started)] ==> initOk(n))
    && (started != names ==> !initOk(started[Before(started)]))
  }

  /** Everything but the last element. */
  function Before(s: seq<string>): nat {
    if s == [] then 0 else |s| - 1
  }

  ghost predicate Reverses(stopped: seq<string>, names: seq<string>) {
    |stopped| == |names| && forall i :: 0 <= i < |names| ==> stopped[i] == names[|names| - 1 - i]
  }

  /** `ShutdownAll` after `InitAll` stops only modules whose `Init` was called if and only if no
      module before the last one in the resolved order fails to start. */
  lemma StopsOnlyStartedIff(names: seq<string>, initOk: string -> bool, started: seq<string>, stopped: seq<string>)
    requires NoDup(names) && StartedSpec(names, initOk, started) && Reverses(stopped, names)
    ensures (forall n :: n in stopped ==> n in started) <==> started == names
    ensures started == names <==> forall n :: n in names[..Before(names)] ==> initOk(n)
  {
    if started != names {
      var last, culprit := names[|names| - 1], started[Before(started)];
      assert stopped[0] == last && last !in started;
      assert names[..Before(names)][Before(started)] == culprit;
    } else {
      forall n | n in stopped ensures n in started {
        var i :| 0 <= i < |stopped| && stopped[i] == n;
        assert names[|names| - 1 - i] == n;
      }
    }
  }

  lemma AllStarted(names: seq<string>, initOk: string -> bool)
    requires forall n :: n in names ==> initOk(n)
    ensures StartedSpec(names, initOk, names)
  {
  }

  lemma SomeStarted(names: seq<string>, initOk: string -> bool, started: seq<string>)
    requires started <= names && started != [] && !initOk(started[|started| - 1])
    requires forall n :: n in started[..|started| - 1] ==> initOk(n)
    ensures StartedSpec(names, initOk, started)
  {
  }

  /** Start everything, then stop everything. */
  method StartThenStop(r: Registry, initOk: string -> bool, stopOk: string -> bool)
    returns (err: Option<RegistryError>, started: seq<string>, stopped: seq<string>)
    requires r.Valid()
    modifies r
    ensures r.modules == old(r.modules) && Reverses(stopped, NamesOf(r.order))
    ensures err.Some? && !err.value.InitFailed? ==> ResolutionSpec(r.modules, Err(err.value)) && started == []
    ensures err.None? || err.value.InitFailed? ==>
      && ResolutionSpec(r.modules, Ok(r.order))
      && var names := NamesOf(r.order);
         && StartedSpec(names, initOk, started)
         && ((forall n :: n in stopped ==> n in started) <==>
             forall n :: n in names[..Before(names)] ==> initOk(n))
  {
    hide ResolutionSpec, NoDup, StartedSpec;
    err, started := r.InitAll(initOk);
    var failed;
    failed, stopped := r.ShutdownAll(stopOk);
    if err.None? || err.value.InitFailed? {
      ghost var names := NamesOf(r.order);
      ResolvedOnce(r.modules, r.order);
      if err.None? { AllStarted(names, initOk); } else { SomeStarted(names, initOk, started); }
      StopsOnlyStartedIff(names, initOk, started, stopped);
    }
  }

  lemma ResolvedOnce(modules: Modules, order: seq<Module>)
    requires ResolutionSpec(modules, Ok(order))
    ensures NoDup(NamesOf(order))
  {
  }

  /** Where `b` depends on `a`, the only answer to resolution is `a`, then `b`. */
  lemma ChainOfTwo(modules: Modules, r: Result<seq<Module>, RegistryError>)
    requires modules.Keys == {"a", "b"} && modules["a"].manifest.dependsOn == []
    requires modules["b"].manifest.dependsOn == ["a"] && ResolutionSpec(modules, r)
    ensures r.Ok? && NamesOf(r.value) == ["a", "b"]
  {
    var g, s := GraphOf(modules), ["a", "b"];
    assert s[0] == "a" && s[1] == "b" && s[..1] == ["a"];
    assert IsTopological(g, s);
    if Cyclic(g) { CyclicHasNoOrder(g, s); }
    if r.Ok? {
      var names := NamesOf(r.value);
      NoDupLength(names);
      NoDupLength(s);
      assert names[0] in Elems(names) && names[1] in Elems(names);
      assert "a" in g["b"] && names[..0] == [];
    }
  }

  /** Two modules without dependencies come in the order of their names. */
  lemma IndependentPair(modules: Modules, r: Result<seq<Module>, RegistryError>)
    requires modules.Keys == {"a", "b"} && ResolutionSpec(modules, r)
    requires modules["a"].manifest.dependsOn == [] && modules["b"].manifest.dependsOn == []
    ensures r.Ok? && NamesOf(r.value) == ["a", "b"]
  {
    var g, s := GraphOf(modules), ["a", "b"];
    assert s[0] == "a" && s[1] == "b";
    assert IsTopological(g, s);
    if Cyclic(g) { CyclicHasNoOrder(g, s); }
    assert r.Ok?;
    var names := NamesOf(r.value);
    NoDupLength(names);
    NoDupLength(s);
    assert names[0] in Elems(names) && names[1] in Elems(names);
    Descending();
    assert names == s || names == ["b", "a"];
  }

  lemma Descending()
    ensures !LexLeq(["b", "a"], ["a", "b"])
  {
    var s, t := ["b", "a"], ["a", "b"];
    LeqIff("b", "a");
    assert "b"[0] == 'b' && "a"[0] == 'a';
    forall k: nat ensures !SmallerAt("b", "a", k) {}
    assert s[0] != t[0];
    forall k: nat | DiffersFirstAt(s, t, k) ensures k == 0 {}
  }

  lemma FirstFails(names: seq<string>, initOk: string -> bool, started: seq<string>, stopped: seq<string>)
    requires names == ["a", "b"] && !initOk("a") && StartedSpec(names, initOk, started) && Reverses(stopped, names)
    ensures "b" in stopped && "b" !in started
  {
    assert names[0] == "a" && names[1] == "b" && stopped[0] == "b";
    assert names[..1] == ["a"];
  }

  /** A module that depends on another which fails to start: shutting down then stops it, although it
      was never started. */
  method StopsAModuleNeverStarted() returns (started: seq<string>, stopped: seq<string>)
    ensures "b" in stopped && "b" !in started
  {
    var r := new Registry();
    var a, b := Module(Manifest("a", "1", [])), Module(Manifest("b", "1", ["a"]));
    var e := r.Register(Some(a));
    assert r.modules == map["a" := a];
    e := r.Register(Some(b));
    assert r.modules == map["a" := a, "b" := b];
    hide ResolutionSpec, StartedSpec;
    var err;
    err, started, stopped := StartThenStop(r, n => n == "b", _ => true);
    ghost var answer := if err.Some? && !err.value.InitFailed? then Err(err.value) else Ok(r.order);
    ChainOfTwo(r.modules, answer);
    FirstFails(NamesOf(r.order), n => n == "b", started, stopped);
  }
}
