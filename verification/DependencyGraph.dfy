/** Dependency graphs of module names: what a correct initialization order is,
    stated without reference to any algorithm. */
module DependencyGraph {
  import opened Shared
  import opened StringOrder

  /** Each module name with its `DependsOn` list, duplicates included. */
  type Graph = map<string, seq<string>>

  ghost predicate Closed(g: Graph) {
    forall n, d :: n in g && d in g[n] ==> d in g
  }

  /** Every element of `p` depends on the next one. */
  ghost predicate IsWalk(g: Graph, p: seq<string>) {
    forall i :: 0 <= i < |p| - 1 ==> p[i] in g && p[i + 1] in g[p[i]]
  }

  ghost predicate IsCycle(g: Graph, p: seq<string>) {
    |p| >= 2 && p[0] == p[|p| - 1] && IsWalk(g, p)
  }

  ghost predicate Cyclic(g: Graph) {
    exists p :: IsCycle(g, p)
  }

  /** `s` lists all modules once, every dependency before its dependents. */
  ghost predicate IsTopological(g: Graph, s: seq<string>) {
    && Enumerates(s, g.Keys)
    && forall i, d :: 0 <= i < |s| && d in g[s[i]] ==> d in s[..i]
  }

  /** `n` can come next once `done` is initialized. */
  ghost predicate Ready(g: Graph, done: seq<string>, n: string) {
    n in g && n !in done && forall d :: d in g[n] ==> d in done
  }

  /** Each element is the least name that is ready at its turn. */
  ghost predicate LeastReadyFirst(g: Graph, s: seq<string>) {
    forall k :: 0 <= k < |s| ==> Ready(g, s[..k], s[k]) && forall n :: Ready(g, s[..k], n) ==> Leq(s[k], n)
  }

  /** Lexicographic order on lists of names. */
  ghost predicate LexLeq(s: seq<string>, t: seq<string>) {
    s <= t || exists k: nat :: DiffersFirstAt(s, t, k) && Leq(s[k], t[k])
  }

  ghost predicate DiffersFirstAt(s: seq<string>, t: seq<string>, k: nat) {
    k < |s| && k < |t| && s[k] != t[k] && forall i :: 0 <= i < k ==> s[i] == t[i]
  }

  ghost predicate IsSmallestTopological(g: Graph, s: seq<string>) {
    IsTopological(g, s) && forall t :: IsTopological(g, t) ==> LexLeq(s, t)
  }

  lemma FirstDifference(s: seq<string>, t: seq<string>) returns (k: nat)
    requires |s| <= |t| && !(s <= t)
    ensures DiffersFirstAt(s, t, k)
  {
    k := 0;
    while s[k] == t[k]
      invariant k < |s| && forall i :: 0 <= i < k ==> s[i] == t[i]
      decreases |s| - k
    {
      k := k + 1;
    }
  }

  /** Greedy choice is optimal against every topological order. */
  lemma LeastReadyFirstIsSmallest(g: Graph, s: seq<string>, t: seq<string>)
    requires LeastReadyFirst(g, s) && IsTopological(g, t) && |s| <= |t|
    ensures LexLeq(s, t)
  {
    if !(s <= t) {
      var k := FirstDifference(s, t);
      assert s[..k] == t[..k];
      assert Ready(g, t[..k], t[k]);
      assert Leq(s[k], t[k]);
    }
  }

  lemma CompleteGreedyIsTopological(g: Graph, s: seq<string>)
    requires LeastReadyFirst(g, s) && Elems(s) == g.Keys
    ensures IsSmallestTopological(g, s)
  {
    forall i, j | 0 <= i < j < |s| ensures s[i] != s[j] {
      assert Ready(g, s[..j], s[j]) && s[i] in s[..j];
    }
    forall i, d | 0 <= i < |s| && d in g[s[i]] ensures d in s[..i] {
      assert Ready(g, s[..i], s[i]);
    }
    forall t | IsTopological(g, t) ensures LexLeq(s, t) {
      NoDupLength(s);
      NoDupLength(t);
      LeastReadyFirstIsSmallest(g, s, t);
    }
  }

  lemma LexLeqAntisymmetric(s: seq<string>, t: seq<string>)
    requires |s| == |t| && LexLeq(s, t) && LexLeq(t, s)
    ensures s == t
  {
    if !(s <= t) {
      var i: nat :| DiffersFirstAt(s, t, i) && Leq(s[i], t[i]);
      var j: nat :| DiffersFirstAt(t, s, j) && Leq(t[j], s[j]);
      assert i == j;
      LeqTotal(s[i], t[i]);
    }
  }

  /** At most one order is smallest, so the outcome is a function of the graph alone. */
  lemma SmallestIsUnique(g: Graph, s: seq<string>, t: seq<string>)
    requires IsSmallestTopological(g, s) && IsSmallestTopological(g, t)
    ensures s == t
  {
    NoDupLength(s);
    NoDupLength(t);
    LexLeqAntisymmetric(s, t);
  }

  /** If nothing is ready although modules remain, one can walk among the remaining ones forever. */
  lemma StuckWalk(g: Graph, done: seq<string>, m: nat) returns (p: seq<string>)
    requires Closed(g) && g.Keys - Elems(done) != {}
    requires forall n :: !Ready(g, done, n)
    ensures |p| == m + 1 && IsWalk(g, p) && Elems(p) <= g.Keys - Elems(done)
  {
    if m == 0 {
      var n :| n in g.Keys - Elems(done);
      p := [n];
    } else {
      var q := StuckWalk(g, done, m - 1);
      var last := q[m - 1];
      assert last in Elems(q);
      assert !Ready(g, done, last);
      var d :| d in g[last] && d !in done;
      p := q + [d];
      forall x | x in p ensures x in g.Keys - Elems(done) {
        if x != d { assert x in Elems(q); }
      }
    }
  }

  lemma StuckIsCyclic(g: Graph, done: seq<string>)
    requires Closed(g) && g.Keys - Elems(done) != {}
    requires forall n :: !Ready(g, done, n)
    ensures Cyclic(g)
  {
    var rest := g.Keys - Elems(done);
    var p := StuckWalk(g, done, |rest|);
    if NoDup(p) {
      NoDupBound(p, rest);
    }
    var i, j :| 0 <= i < j < |p| && p[i] == p[j];
    assert IsCycle(g, p[i..j + 1]);
  }

  ghost function Position(s: seq<string>, x: string): (i: nat)
    requires x in s
    ensures i < |s| && s[i] == x
  {
    if s[0] == x then 0 else 1 + Position(s[1..], x)
  }

  /** Along a walk, positions in a topological order strictly decrease. */
  lemma {:induction false} WalkGoesBack(g: Graph, s: seq<string>, p: seq<string>)
    requires IsTopological(g, s) && IsWalk(g, p) && |p| >= 2
    ensures p[0] in s && p[|p| - 1] in s
    ensures Position(s, p[|p| - 1]) < Position(s, p[0])
  {
    assert p[0] in Elems(s) && p[1] in g[p[0]];
    var i := Position(s, p[0]);
    var j :| 0 <= j < i && s[j] == p[1];
    assert Position(s, p[1]) == j;
    if |p| > 2 {
      assert IsWalk(g, p[1..]);
      WalkGoesBack(g, s, p[1..]);
    }
  }

  lemma CyclicHasNoOrder(g: Graph, s: seq<string>)
    requires Cyclic(g)
    ensures !IsTopological(g, s)
  {
    var p :| IsCycle(g, p);
    if IsTopological(g, s) {
      WalkGoesBack(g, s, p);
    }
  }
}
