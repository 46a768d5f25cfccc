/** Unit conversion of `internal/core/domain/product/unit.go`: breadth-first search over the
    graph of direct and inverse conversions. Factors are reals. */
module UnitConversion {
  import opened Shared

  datatype Conversion = Conversion(fromUnit: Id, toUnit: Id, factor: real)

  datatype Edge = Edge(to: Id, factor: real)

  datatype ConvertError = UnitMismatch

  function Scale(amount: real, factor: real): real {
    amount * factor
  }

  function Inverse(factor: real): real
    requires factor != 0.0
  {
    1.0 / factor
  }

  const EPSILON: real := 0.000000001

  predicate Usable(c: Conversion) {
    c.factor >= EPSILON || c.factor <= -EPSILON
  }

  /** `e` leaves `node` by some usable conversion, forwards or backwards. */
  ghost predicate Offers(c: Conversion, node: Id, e: Edge) {
    Usable(c) && (   (c.fromUnit == node && e == Edge(c.toUnit, c.factor))
                  || (c.toUnit == node && e == Edge(c.fromUnit, Inverse(c.factor))))
  }

  ghost predicate IsEdge(cs: seq<Conversion>, node: Id, e: Edge) {
    exists i :: 0 <= i < |cs| && Offers(cs[i], node, e)
  }

  /** The node reached by following `p` from `source`. */
  function End(source: Id, p: seq<Edge>): Id {
    if p == [] then source else p[|p| - 1].to
  }

  ghost predicate IsPath(cs: seq<Conversion>, source: Id, p: seq<Edge>) {
    p == [] || (var m := |p| - 1; IsPath(cs, source, p[..m]) && IsEdge(cs, End(source, p[..m]), p[m]))
  }

  ghost function Product(p: seq<Edge>): real {
    if p == [] then 1.0 else Scale(Product(p[..|p| - 1]), p[|p| - 1].factor)
  }

  ghost predicate Carries(factor: real, p: seq<Edge>) {
    factor == Product(p)
  }

  ghost predicate Connects(cs: seq<Conversion>, source: Id, target: Id, p: seq<Edge>) {
    IsPath(cs, source, p) && End(source, p) == target
  }

  ghost predicate Connected(cs: seq<Conversion>, source: Id, target: Id) {
    exists p :: Connects(cs, source, target, p)
  }

  ghost predicate IsShortest(cs: seq<Conversion>, source: Id, target: Id, p: seq<Edge>) {
    Connects(cs, source, target, p) && forall q :: Connects(cs, source, target, q) ==> |p| <= |q|
  }

  /** What `Convert` must answer: it succeeds exactly on connected units, and then scales by the
      product of the factors along some path with the fewest hops. */
  ghost predicate Converts(cs: seq<Conversion>, amount: real, source: Id, target: Id, r: Result<real, ConvertError>) {
    && (r.Ok? <==> Connected(cs, source, target))
    && (r.Ok? ==> exists p :: IsShortest(cs, source, target, p) && r.value == Scale(amount, Product(p)))
  }

  lemma Append(cs: seq<Conversion>, source: Id, p: seq<Edge>, e: Edge)
    requires IsPath(cs, source, p) && IsEdge(cs, End(source, p), e)
    ensures IsPath(cs, source, p + [e]) && Product(p + [e]) == Scale(Product(p), e.factor)
  {
    assert (p + [e])[..|p|] == p;
  }

  // ---- The search ----

  /** `adj` lists exactly the edges offered by `cs`. */
  ghost predicate AdjacencyExact(adj: map<Id, seq<Edge>>, cs: seq<Conversion>) {
    forall node, e :: e in Lookup(adj, node) <==> IsEdge(cs, node, e)
  }

  function AddEdge(adj: map<Id, seq<Edge>>, node: Id, e: Edge): (r: map<Id, seq<Edge>>)
    ensures forall n, x :: x in Lookup(r, n) <==> x in Lookup(adj, n) || (n == node && x == e)
  {
    adj[node := Lookup(adj, node) + [e]]
  }

  method BuildAdjacency(cs: seq<Conversion>) returns (adj: map<Id, seq<Edge>>)
    ensures AdjacencyExact(adj, cs)
  {
    adj := map[];
    assert AdjacencyExact(adj, cs[..0]);
    hide IsEdge, Inverse, Lookup;
    for k := 0 to |cs|
      invariant AdjacencyExact(adj, cs[..k])
    {
      var c := cs[k];
      if Usable(c) {
        adj := AddEdge(adj, c.fromUnit, Edge(c.toUnit, c.factor));
        adj := AddEdge(adj, c.toUnit, Edge(c.fromUnit, Inverse(c.factor)));
      }
    }
    assert cs[..|cs|] == cs;
  }

  datatype QueueItem = QueueItem(node: Id, factor: real)

  /** Ghost record of the search: the path by which each visited node was reached. */
  type Paths = map<Id, seq<Edge>>

  ghost predicate PathsValid(cs: seq<Conversion>, source: Id, paths: Paths) {
    && source in paths && paths[source] == []
    && forall n :: n in paths ==> Connects(cs, source, n, paths[n])
  }

  /** Queued nodes are visited, distinct and carry the product along their path. */
  ghost predicate QueueValid(queue: seq<QueueItem>, paths: Paths) {
    && (forall i :: 0 <= i < |queue| ==> queue[i].node in paths && Carries(queue[i].factor, paths[queue[i].node]))
    && (forall i, j :: 0 <= i < j < |queue| ==> queue[i].node != queue[j].node)
  }

  ghost predicate Queued(queue: seq<QueueItem>, n: Id) {
    exists i :: 0 <= i < |queue| && queue[i].node == n
  }

  /** The queue holds at most two consecutive levels, in order. */
  ghost predicate LevelOrdered(queue: seq<QueueItem>, paths: Paths, level: nat) {
    && QueueValid(queue, paths)
    && (forall i :: 0 <= i < |queue| ==> level <= |paths[queue[i].node]| <= level + 1)
    && (forall i, j :: 0 <= i < j < |queue| ==> |paths[queue[i].node]| <= |paths[queue[j].node]|)
  }

  /** Every edge out of an expanded node has been followed. */
  ghost predicate Expanded(cs: seq<Conversion>, paths: Paths, n: Id) {
    n in paths && forall e :: IsEdge(cs, n, e) ==> e.to in paths && |paths[e.to]| <= |paths[n]| + 1
  }

  /** The search invariant: visited nodes are `done` (expanded), `open` (being expanded) or queued;
      nothing lies more than one level beyond `level`. */
  ghost predicate Search(cs: seq<Conversion>, source: Id, queue: seq<QueueItem>, paths: Paths,
                         done: set<Id>, open: set<Id>, level: nat) {
    && PathsValid(cs, source, paths) && LevelOrdered(queue, paths, level)
    && Covered(queue, paths, done, open)
    && AllExpanded(cs, paths, done)
    && (forall n :: n in paths ==> |paths[n]| <= level + 1)
  }

  ghost predicate Covered(queue: seq<QueueItem>, paths: Paths, done: set<Id>, open: set<Id>) {
    && done !! open
    && (forall n :: n in paths <==> n in done || n in open || Queued(queue, n))
    && (forall n :: n in done || n in open ==> !Queued(queue, n))
  }

  ghost predicate AllExpanded(cs: seq<Conversion>, paths: Paths, done: set<Id>) {
    forall n :: n in done ==> Expanded(cs, paths, n)
  }

  /** Paths no longer than anything in the queue lead to nodes already reached as quickly. */
  lemma {:induction false} ShortPathsSettled(cs: seq<Conversion>, source: Id, queue: seq<QueueItem>, paths: Paths,
                                             done: set<Id>, level: nat, q: seq<Edge>)
    requires Search(cs, source, queue, paths, done, {}, level) && IsPath(cs, source, q)
    requires forall i :: 0 <= i < |queue| ==> |q| <= |paths[queue[i].node]|
    ensures End(source, q) in paths && |paths[End(source, q)]| <= |q|
  {
    if q != [] {
      var m := |q| - 1;
      ShortPathsSettled(cs, source, queue, paths, done, level, q[..m]);
      assert Expanded(cs, paths, End(source, q[..m]));
      assert IsEdge(cs, End(source, q[..m]), q[m]);
    }
  }

  lemma FrontIsShortest(cs: seq<Conversion>, source: Id, queue: seq<QueueItem>, paths: Paths,
                        done: set<Id>, level: nat)
    requires Search(cs, source, queue, paths, done, {}, level) && queue != []
    ensures IsShortest(cs, source, queue[0].node, paths[queue[0].node])
  {
    var n := queue[0].node;
    forall q | Connects(cs, source, n, q) ensures |paths[n]| <= |q| {
      if |q| < |paths[n]| {
        ShortPathsSettled(cs, source, queue, paths, done, level, q);
      }
    }
  }

  lemma ExhaustedMeansUnconnected(cs: seq<Conversion>, source: Id, target: Id, paths: Paths, done: set<Id>, level: nat)
    requires Search(cs, source, [], paths, done, {}, level) && target !in done
    ensures !Connected(cs, source, target)
  {
    forall q ensures !Connects(cs, source, target, q) {
      if Connects(cs, source, target, q) {
        ShortPathsSettled(cs, source, [], paths, done, level, q);
      }
    }
  }

  lemma QueuedAfterPush(queue: seq<QueueItem>, item: QueueItem, n: Id)
    ensures Queued(queue + [item], n) <==> n == item.node || Queued(queue, n)
  {
    var queue' := queue + [item];
    assert queue'[|queue|] == item;
    if Queued(queue, n) {
      var i :| 0 <= i < |queue| && queue[i].node == n;
      assert queue'[i].node == n;
    }
  }

  lemma PopFront(cs: seq<Conversion>, source: Id, queue: seq<QueueItem>, paths: Paths, done: set<Id>, level: nat)
    requires Search(cs, source, queue, paths, done, {}, level) && queue != []
    ensures Search(cs, source, queue[1..], paths, done, {queue[0].node}, |paths[queue[0].node]|)
  {
    hide PathsValid, AllExpanded;
    var rest := queue[1..];
    assert Covered(rest, paths, done, {queue[0].node}) by {
      hide LevelOrdered;
      assert !Queued(rest, queue[0].node);
    }
  }

  lemma VisitCovered(queue: seq<QueueItem>, paths: Paths, done: set<Id>, open: set<Id>, item: QueueItem, p: seq<Edge>)
    requires Covered(queue, paths, done, open) && item.node !in paths
    ensures Covered(queue + [item], paths[item.node := p], done, open)
  {
    forall n { QueuedAfterPush(queue, item, n); }
  }

  lemma VisitLevelOrdered(queue: seq<QueueItem>, paths: Paths, level: nat, item: QueueItem, p: seq<Edge>)
    requires LevelOrdered(queue, paths, level) && item.node !in paths
    requires Carries(item.factor, p) && |p| == level + 1
    ensures LevelOrdered(queue + [item], paths[item.node := p], level)
  {
    hide Carries;
    assert forall i :: 0 <= i < |queue| ==> queue[i].node != item.node;
  }

  lemma VisitExpanded(cs: seq<Conversion>, paths: Paths, done: set<Id>, n: Id, p: seq<Edge>)
    requires AllExpanded(cs, paths, done) && n !in paths
    ensures AllExpanded(cs, paths[n := p], done)
  {
    hide IsEdge;
  }

  /** Reaching a new node over an edge of the open one keeps the invariant. */
  lemma Visit(cs: seq<Conversion>, source: Id, queue: seq<QueueItem>, paths: Paths, done: set<Id>, curr: QueueItem,
              level: nat, e: Edge)
    requires Search(cs, source, queue, paths, done, {curr.node}, level)
    requires curr.node in paths && |paths[curr.node]| == level && Carries(curr.factor, paths[curr.node])
    requires IsEdge(cs, curr.node, e) && e.to !in paths
    ensures Search(cs, source, queue + [QueueItem(e.to, Scale(curr.factor, e.factor))],
                   paths[e.to := paths[curr.node] + [e]], done, {curr.node}, level)
  {
    var item := QueueItem(e.to, Scale(curr.factor, e.factor));
    var p := paths[curr.node] + [e];
    hide Covered, LevelOrdered, AllExpanded, IsEdge, Scale;
    VisitCovered(queue, paths, done, {curr.node}, item, p);
    VisitLevelOrdered(queue, paths, level, item, p);
    VisitExpanded(cs, paths, done, e.to, p);
  }

  lemma CloseNode(cs: seq<Conversion>, source: Id, queue: seq<QueueItem>, paths: Paths, done: set<Id>, n: Id,
                  level: nat)
    requires Search(cs, source, queue, paths, done, {n}, level) && n in paths && |paths[n]| == level
    requires forall e :: IsEdge(cs, n, e) ==> e.to in paths
    ensures Search(cs, source, queue, paths, done + {n}, {}, level)
  {
    assert Expanded(cs, paths, n);
  }

  /** All nodes mentioned, which bounds the search. */
  function Nodes(cs: seq<Conversion>, source: Id): set<Id> {
    {source} + (set c | c in cs :: c.fromUnit) + (set c | c in cs :: c.toUnit)
  }

  /** Follows every edge out of the node just taken from the queue. */
  method Expand(ghost cs: seq<Conversion>, ghost source: Id, curr: QueueItem, edges: seq<Edge>,
                queue0: seq<QueueItem>, visited0: set<Id>, ghost paths0: Paths, ghost done: set<Id>, ghost level: nat)
    returns (queue: seq<QueueItem>, visited: set<Id>, ghost paths: Paths)
    requires Search(cs, source, queue0, paths0, done, {curr.node}, level) && visited0 == paths0.Keys
    requires curr.node in paths0 && |paths0[curr.node]| == level && Carries(curr.factor, paths0[curr.node])
    requires forall e :: e in edges <==> IsEdge(cs, curr.node, e)
    ensures Search(cs, source, queue, paths, done + {curr.node}, {}, level) && visited == paths.Keys
    ensures queue0 <= queue && visited0 <= visited && forall j :: 0 <= j < |edges| ==> edges[j].to in visited
  {
    hide Search, IsEdge, Carries;
    queue, visited, paths := queue0, visited0, paths0;
    for j := 0 to |edges|
      invariant Search(cs, source, queue, paths, done, {curr.node}, level) && visited == paths.Keys
      invariant curr.node in paths && |paths[curr.node]| == level && Carries(curr.factor, paths[curr.node])
      invariant queue0 <= queue && visited0 <= visited && forall i :: 0 <= i < j ==> edges[i].to in visited
    {
      var e := edges[j];
      if e.to !in visited {
        Visit(cs, source, queue, paths, done, curr, level, e);
        visited := visited + {e.to};
        queue := queue + [QueueItem(e.to, Scale(curr.factor, e.factor))];
        paths := paths[e.to := paths[curr.node] + [e]];
      }
    }
    CloseNode(cs, source, queue, paths, done, curr.node, level);
  }

  lemma SearchFacts(cs: seq<Conversion>, source: Id, queue: seq<QueueItem>, paths: Paths, done: set<Id>, level: nat)
    requires Search(cs, source, queue, paths, done, {}, level)
    ensures done <= Nodes(cs, source)
    ensures queue != [] ==> queue[0].node in paths && queue[0].node !in done && queue[0].node in Nodes(cs, source)
    ensures queue != [] ==> Carries(queue[0].factor, paths[queue[0].node])
  {
    assert forall n :: n in paths ==> Connects(cs, source, n, paths[n]);
    forall n | n in paths ensures n in Nodes(cs, source) {}
    forall n | n in done ensures n in Nodes(cs, source) {
      assert n in paths;
    }
    if queue != [] {
      assert Queued(queue, queue[0].node);
    }
  }

  lemma SearchStarts(cs: seq<Conversion>, source: Id)
    ensures Search(cs, source, [QueueItem(source, 1.0)], map[source := []], {}, {}, 0)
  {
    var queue := [QueueItem(source, 1.0)];
    assert queue[0].node == source;
    assert forall n :: Queued(queue, n) <==> n == source;
  }

  lemma SameUnit(cs: seq<Conversion>, amount: real, unit: Id)
    ensures Converts(cs, amount, unit, unit, Ok(amount))
  {
    assert Connects(cs, unit, unit, []) && IsShortest(cs, unit, unit, []) && Product([]) == 1.0;
  }

  lemma FoundShortest(cs: seq<Conversion>, amount: real, source: Id, target: Id, p: seq<Edge>, factor: real)
    requires IsShortest(cs, source, target, p) && Carries(factor, p)
    ensures Converts(cs, amount, source, target, Ok(Scale(amount, factor)))
  {
    assert Connects(cs, source, target, p);
  }

  lemma NotFound(cs: seq<Conversion>, amount: real, source: Id, target: Id)
    requires !Connected(cs, source, target)
    ensures Converts(cs, amount, source, target, Err(UnitMismatch))
  {
  }

  lemma EdgesExact(cs: seq<Conversion>, adj: map<Id, seq<Edge>>, node: Id)
    requires AdjacencyExact(adj, cs)
    ensures forall e :: e in Lookup(adj, node) <==> IsEdge(cs, node, e)
  {
  }

  method Convert(amount: real, source: Id, target: Id, cs: seq<Conversion>) returns (r: Result<real, ConvertError>)
    ensures Converts(cs, amount, source, target, r)
  {
    hide *;
    if source == target {
      SameUnit(cs, amount, source);
      return Ok(amount);
    }
    var adj := BuildAdjacency(cs);
    var queue, visited := [QueueItem(source, 1.0)], {source};
    ghost var paths: Paths, done: set<Id>, level: nat := map[source := []], {}, 0;
    SearchStarts(cs, source);
    while queue != []
      invariant Search(cs, source, queue, paths, done, {}, level) && visited == paths.Keys
      invariant target !in done && done <= Nodes(cs, source)
      decreases Nodes(cs, source) - done
    {
      var curr := queue[0];
      SearchFacts(cs, source, queue, paths, done, level);
      FrontIsShortest(cs, source, queue, paths, done, level);
      if curr.node == target {
        FoundShortest(cs, amount, source, target, paths[target], curr.factor);
        return Ok(Scale(amount, curr.factor));
      }
      PopFront(cs, source, queue, paths, done, level);
      level := |paths[curr.node]|;
      var edges := Lookup(adj, curr.node);
      EdgesExact(cs, adj, curr.node);
      queue, visited, paths := Expand(cs, source, curr, edges, queue[1..], visited, paths, done, level);
      done := done + {curr.node};
    }
    ExhaustedMeansUnconnected(cs, source, target, paths, done, level);
    NotFound(cs, amount, source, target);
    return Err(UnitMismatch);
  }

  // ---- Consistent conversion tables ----

  /** Every usable conversion agrees with one weight per unit: 1 `fromUnit` = `factor` `toUnit`. */
  ghost predicate Consistent(cs: seq<Conversion>, w: Id -> real) {
    && (forall n :: w(n) != 0.0)
    && (forall c :: c in cs && Usable(c) ==> w(c.fromUnit) == Scale(c.factor, w(c.toUnit)))
  }

  /** `amount` units of weight `u`, counted in units of weight `v`. */
  function Rescale(amount: real, u: real, v: real): real
    requires v != 0.0
  {
    amount * u / v
  }

  lemma ScaleBack(x: real, f: real, y: real)
    requires x == Scale(f, y) && f != 0.0
    ensures y == Scale(Inverse(f), x)
  {
    assert (1.0 / f) * (f * y) == y;
  }

  lemma ScaleAssociative(p: real, f: real, x: real)
    ensures Scale(p, Scale(f, x)) == Scale(Scale(p, f), x)
  {
  }

  lemma Ratio(amount: real, f: real, x: real, y: real)
    requires x == Scale(f, y) && y != 0.0
    ensures Scale(amount, f) == Rescale(amount, x, y)
  {
    assert (amount * f) * y == amount * x;
  }

  lemma RescaleTwice(x: real, a: real, b: real, c: real)
    requires b != 0.0 && c != 0.0
    ensures Rescale(Rescale(x, a, b), b, c) == Rescale(x, a, c)
  {
    assert (x * a / b) * b == x * a;
  }

  lemma RescaleSame(x: real, a: real)
    requires a != 0.0
    ensures Rescale(x, a, a) == x
  {
  }

  lemma EdgeWeight(cs: seq<Conversion>, w: Id -> real, node: Id, e: Edge)
    requires Consistent(cs, w) && IsEdge(cs, node, e)
    ensures w(node) == Scale(e.factor, w(e.to))
  {
    hide Scale, Inverse;
    var i :| 0 <= i < |cs| && Offers(cs[i], node, e);
    assert cs[i] in cs;
    ScaleBack(w(cs[i].fromUnit), cs[i].factor, w(cs[i].toUnit));
  }

  lemma {:induction false} PathWeight(cs: seq<Conversion>, w: Id -> real, source: Id, p: seq<Edge>)
    requires Consistent(cs, w) && IsPath(cs, source, p)
    ensures w(source) == Scale(Product(p), w(End(source, p)))
  {
    if p != [] {
      var m := |p| - 1;
      PathWeight(cs, w, source, p[..m]);
      EdgeWeight(cs, w, End(source, p[..m]), p[m]);
      ScaleAssociative(Product(p[..m]), p[m].factor, w(p[m].to));
    }
  }

  /** On a consistent table the answer does not depend on the path taken. */
  lemma ConsistentValue(cs: seq<Conversion>, w: Id -> real, amount: real, source: Id, target: Id, v: real)
    requires Consistent(cs, w) && Converts(cs, amount, source, target, Ok(v))
    ensures v == Rescale(amount, w(source), w(target))
  {
    hide Scale, Rescale;
    var p :| IsShortest(cs, source, target, p) && v == Scale(amount, Product(p));
    PathWeight(cs, w, source, p);
    Ratio(amount, Product(p), w(source), w(target));
  }

  lemma {:induction false} Concatenate(cs: seq<Conversion>, source: Id, p: seq<Edge>, q: seq<Edge>)
    requires IsPath(cs, source, p) && IsPath(cs, End(source, p), q)
    ensures IsPath(cs, source, p + q) && End(source, p + q) == End(End(source, p), q)
  {
    if q == [] {
      assert p + q == p;
    } else {
      var m := |q| - 1;
      Concatenate(cs, source, p, q[..m]);
      assert (p + q)[..|p + q| - 1] == p + q[..m];
      assert (p + q)[|p + q| - 1] == q[m];
    }
  }

  lemma ConnectedTransitive(cs: seq<Conversion>, a: Id, b: Id, c: Id)
    requires Connected(cs, a, b) && Connected(cs, b, c)
    ensures Connected(cs, a, c)
  {
    var p :| Connects(cs, a, b, p);
    var q :| Connects(cs, b, c, q);
    Concatenate(cs, a, p, q);
    assert Connects(cs, a, c, p + q);
  }

  lemma EdgeBack(cs: seq<Conversion>, node: Id, e: Edge)
    requires IsEdge(cs, node, e)
    ensures Connected(cs, e.to, node)
  {
    var i :| 0 <= i < |cs| && Offers(cs[i], node, e);
    var c := cs[i];
    hide Inverse;
    var back := if c.fromUnit == node && e == Edge(c.toUnit, c.factor)
                then Edge(node, Inverse(c.factor)) else Edge(node, c.factor);
    assert Offers(cs[i], e.to, back);
    assert IsPath(cs, e.to, [back][..0]) && IsEdge(cs, e.to, back);
    assert Connects(cs, e.to, node, [back]);
  }

  lemma {:induction false} PathBack(cs: seq<Conversion>, source: Id, p: seq<Edge>)
    requires IsPath(cs, source, p)
    ensures Connected(cs, End(source, p), source)
  {
    if p == [] {
      assert Connects(cs, source, source, []);
    } else {
      var m := |p| - 1;
      PathBack(cs, source, p[..m]);
      EdgeBack(cs, End(source, p[..m]), p[m]);
      ConnectedTransitive(cs, p[m].to, End(source, p[..m]), source);
    }
  }

  /** A conversion succeeds exactly when its inverse does, on every table. */
  lemma ConvertsBothWays(cs: seq<Conversion>, x: real, y: real, a: Id, b: Id,
                         r: Result<real, ConvertError>, back: Result<real, ConvertError>)
    requires Converts(cs, x, a, b, r) && Converts(cs, y, b, a, back)
    ensures r.Ok? <==> back.Ok?
  {
    if Connected(cs, a, b) {
      var p :| Connects(cs, a, b, p);
      PathBack(cs, a, p);
    }
    if Connected(cs, b, a) {
      var p :| Connects(cs, b, a, p);
      PathBack(cs, b, p);
    }
  }

  /** Converting there and back returns the original amount. */
  lemma RoundTrip(cs: seq<Conversion>, w: Id -> real, x: real, a: Id, b: Id, y: real, z: real)
    requires Consistent(cs, w) && Converts(cs, x, a, b, Ok(y)) && Converts(cs, y, b, a, Ok(z))
    ensures z == x
  {
    hide Converts, Rescale, Scale;
    ConsistentValue(cs, w, x, a, b, y);
    ConsistentValue(cs, w, y, b, a, z);
    RescaleTwice(x, w(a), w(b), w(a));
    RescaleSame(x, w(a));
  }

  /** Going through an intermediate unit gives the same amount as converting directly. */
  lemma Composition(cs: seq<Conversion>, w: Id -> real, x: real, a: Id, b: Id, c: Id, y: real, z: real,
                    direct: Result<real, ConvertError>)
    requires Consistent(cs, w) && Converts(cs, x, a, b, Ok(y)) && Converts(cs, y, b, c, Ok(z))
    requires Converts(cs, x, a, c, direct)
    ensures direct == Ok(z)
  {
    hide Rescale, Scale;
    ConnectedTransitive(cs, a, b, c);
    assert direct.Ok?;
    hide Converts;
    ConsistentValue(cs, w, x, a, b, y);
    ConsistentValue(cs, w, y, b, c, z);
    ConsistentValue(cs, w, x, a, c, direct.value);
    RescaleTwice(x, w(a), w(b), w(c));
  }

  // ---- What is convertible, by the numbers ----

  /** Some conversion with a factor of at least 1e-9 in absolute value joins the two units. */
  ghost predicate Joined(cs: seq<Conversion>, u: Id, v: Id) {
    exists c :: c in cs && (c.factor >= 0.000000001 || c.factor <= -0.000000001)
                && ((c.fromUnit == u && c.toUnit == v) || (c.fromUnit == v && c.toUnit == u))
  }

  ghost predicate IsChain(cs: seq<Conversion>, us: seq<Id>) {
    us != [] && forall i :: 0 <= i < |us| - 1 ==> Joined(cs, us[i], us[i + 1])
  }

  ghost predicate Links(cs: seq<Conversion>, a: Id, b: Id, us: seq<Id>) {
    IsChain(cs, us) && us[0] == a && us[|us| - 1] == b
  }

  lemma JoinedIff(cs: seq<Conversion>, u: Id, v: Id)
    ensures Joined(cs, u, v) <==> exists f :: IsEdge(cs, u, Edge(v, f))
  {
    if Joined(cs, u, v) {
      var c :| c in cs && (c.factor >= 0.000000001 || c.factor <= -0.000000001)
               && ((c.fromUnit == u && c.toUnit == v) || (c.fromUnit == v && c.toUnit == u));
      var i :| 0 <= i < |cs| && cs[i] == c;
      if c.fromUnit == u && c.toUnit == v {
        assert Offers(cs[i], u, Edge(v, c.factor));
        assert IsEdge(cs, u, Edge(v, c.factor));
      } else {
        assert Offers(cs[i], u, Edge(v, Inverse(c.factor)));
        assert IsEdge(cs, u, Edge(v, Inverse(c.factor)));
      }
    }
    if f :| IsEdge(cs, u, Edge(v, f)) {
      var i :| 0 <= i < |cs| && Offers(cs[i], u, Edge(v, f));
      assert cs[i] in cs;
    }
  }

  lemma {:induction false} ChainOfPath(cs: seq<Conversion>, a: Id, p: seq<Edge>) returns (us: seq<Id>)
    requires IsPath(cs, a, p)
    ensures Links(cs, a, End(a, p), us)
    decreases |p|
  {
    if p == [] {
      us := [a];
    } else {
      var m := |p| - 1;
      var init := ChainOfPath(cs, a, p[..m]);
      JoinedIff(cs, End(a, p[..m]), p[m].to);
      assert p[m] == Edge(p[m].to, p[m].factor);
      us := init + [p[m].to];
    }
  }

  lemma {:induction false} PathOfChain(cs: seq<Conversion>, us: seq<Id>) returns (p: seq<Edge>)
    requires IsChain(cs, us)
    ensures Connects(cs, us[0], us[|us| - 1], p)
    decreases |us|
  {
    var n := |us| - 1;
    if n == 0 {
      p := [];
    } else {
      var init := PathOfChain(cs, us[..n]);
      JoinedIff(cs, us[n - 1], us[n]);
      var f :| IsEdge(cs, us[n - 1], Edge(us[n], f));
      Append(cs, us[0], init, Edge(us[n], f));
      p := init + [Edge(us[n], f)];
    }
  }

  /** Two units convert if and only if a chain of conversions links them, forwards or backwards, each
      with a factor of at least 1e-9 in absolute value. */
  lemma ConvertibleIff(cs: seq<Conversion>, amount: real, a: Id, b: Id, r: Result<real, ConvertError>)
    requires Converts(cs, amount, a, b, r)
    ensures r.Ok? <==> exists us :: Links(cs, a, b, us)
  {
    if r.Ok? {
      var p :| Connects(cs, a, b, p);
      var us := ChainOfPath(cs, a, p);
    }
    if us :| Links(cs, a, b, us) {
      var p := PathOfChain(cs, us);
    }
  }

  /** One conversion between two units: it is used if its factor is at least 1e-9 in absolute value, by
      multiplication forwards and by division backwards. */
  lemma OneConversion(amount: real, a: Id, b: Id, f: real, forth: Result<real, ConvertError>,
                      back: Result<real, ConvertError>)
    requires a != b && Converts([Conversion(a, b, f)], amount, a, b, forth)
    requires Converts([Conversion(a, b, f)], amount, b, a, back)
    ensures forth.Ok? <==> f >= 0.000000001 || f <= -0.000000001
    ensures back.Ok? <==> f >= 0.000000001 || f <= -0.000000001
    ensures forth.Ok? ==> forth.value == amount * f
    ensures back.Ok? ==> back.value == amount / f
  {
    var cs := [Conversion(a, b, f)];
    assert cs[0] in cs;
    if f >= 0.000000001 || f <= -0.000000001 {
      OneEdge(cs, a, Edge(b, f));
      OneEdge(cs, b, Edge(a, Inverse(f)));
      ShortestIsOne(cs, amount, a, b, f, forth);
      ShortestIsOne(cs, amount, b, a, Inverse(f), back);
      assert amount * (1.0 / f) == amount / f;
    } else {
      NoEdges(cs, a, b);
      NoEdges(cs, b, a);
    }
  }

  lemma OneEdge(cs: seq<Conversion>, u: Id, e: Edge)
    requires |cs| == 1 && Offers(cs[0], u, e)
    ensures IsEdge(cs, u, e)
  {
  }

  lemma NoEdges(cs: seq<Conversion>, a: Id, b: Id)
    requires |cs| == 1 && !Usable(cs[0]) && a != b
    ensures !Connected(cs, a, b)
  {
    forall p ensures !Connects(cs, a, b, p) {
      if Connects(cs, a, b, p) { LastEdge(cs, a, b, p); }
    }
  }

  lemma LastEdge(cs: seq<Conversion>, a: Id, b: Id, p: seq<Edge>)
    requires Connects(cs, a, b, p) && a != b
    ensures p != [] && IsEdge(cs, End(a, p[..|p| - 1]), p[|p| - 1])
  {
  }

  lemma OneTimes(f: real)
    ensures Scale(1.0, f) == f
  {
  }

  /** If the only edge to `b` from `a` carries `f`, the conversion multiplies by `f`. */
  lemma ShortestIsOne(cs: seq<Conversion>, amount: real, a: Id, b: Id, f: real, r: Result<real, ConvertError>)
    requires a != b && IsEdge(cs, a, Edge(b, f)) && Converts(cs, amount, a, b, r)
    requires forall g :: IsEdge(cs, a, Edge(b, g)) ==> g == f
    ensures r == Ok(Scale(amount, f))
  {
    hide Scale;
    var one := [Edge(b, f)];
    assert one[..0] == [] && IsPath(cs, a, one[..0]);
    assert Connects(cs, a, b, one);
    var p: seq<Edge> :| IsShortest(cs, a, b, p) && r.value == Scale(amount, Product(p));
    LastEdge(cs, a, b, p);
    assert |p| <= 1 && |p| == 1 && p[..0] == [];
    assert p[0] == Edge(b, p[0].factor) && IsEdge(cs, a, Edge(b, p[0].factor));
    assert p[0].factor == f && Product(p[..0]) == 1.0 && Product(p) == Scale(1.0, f);
    OneTimes(f);
  }
}
