/** Parent graphs and the cycle check of `internal/core/domain/organization/organization.go`. */
module Hierarchy {
  import opened Shared

  /** Each organization with its stored parent. */
  type ParentMap = map<Id, Option<Id>>

  /** The parent that is followed: absent entries, nil and the nil ID all end the chain. */
  function Parent(pm: ParentMap, x: Id): Option<Id> {
    if x in pm && pm[x].Some? && pm[x].value != NIL_ID then pm[x] else None
  }

  /** The `n`-th ancestor of `x`. */
  ghost function Up(pm: ParentMap, x: Id, n: nat): Option<Id>
    decreases n
  {
    if n == 0 then Some(x)
    else match Parent(pm, x)
      case None => None
      case Some(p) => Up(pm, p, n - 1)
  }

  ghost predicate Finite(pm: ParentMap, x: Id) {
    exists n: nat :: Up(pm, x, n).None?
  }

  ghost predicate Acyclic(pm: ParentMap) {
    forall x, n: nat :: n >= 1 ==> Up(pm, x, n) != Some(x)
  }

  lemma {:induction false} UpAdd(pm: ParentMap, x: Id, a: nat, b: nat)
    ensures Up(pm, x, a + b) == if Up(pm, x, a).None? then None else Up(pm, Up(pm, x, a).value, b)
    decreases a
  {
    if a > 0 && Parent(pm, x).Some? {
      UpAdd(pm, Parent(pm, x).value, a - 1, b);
    }
  }

  /** From a node on a cycle the chain never ends. */
  lemma {:induction false} CycleNeverEnds(pm: ParentMap, x: Id, n: nat, m: nat)
    requires n >= 1 && Up(pm, x, n) == Some(x)
    ensures Up(pm, x, m).Some?
    decreases m
  {
    if m <= n {
      UpAdd(pm, x, m, n - m);
    } else {
      UpAdd(pm, x, n, m - n);
      CycleNeverEnds(pm, x, n, m - n);
    }
  }

  /** Two maps that agree on every node before the `n`-th have the same chain up to it. */
  lemma {:induction false} SameChain(pm: ParentMap, pm': ParentMap, target: Id, x: Id, n: nat)
    requires forall y :: y != target ==> Parent(pm, y) == Parent(pm', y)
    requires forall i: nat :: i < n ==> Up(pm, x, i) != Some(target)
    ensures forall i: nat :: i <= n ==> Up(pm, x, i) == Up(pm', x, i)
    decreases n
  {
    if n > 0 {
      assert Up(pm, x, 0) == Some(x);
      match Parent(pm, x)
      case None =>
      case Some(p) =>
        forall i: nat | i < n - 1 ensures Up(pm, p, i) != Some(target) {
          assert Up(pm, x, i + 1) == Up(pm, p, i);
        }
        SameChain(pm, pm', target, p, n - 1);
        forall i: nat | i <= n ensures Up(pm, x, i) == Up(pm', x, i) {
          if i > 0 { assert Up(pm, p, i - 1) == Up(pm', p, i - 1); }
        }
    }
  }

  /** The first `n + 1` nodes of a chain that is at least that long. */
  ghost function Chain(pm: ParentMap, x: Id, n: nat): (s: seq<Id>)
    requires Up(pm, x, n).Some?
    ensures |s| == n + 1
    ensures forall i :: 0 <= i <= n ==> Up(pm, x, i) == Some(s[i])
    decreases n
  {
    if n == 0 then [x] else [x] + Chain(pm, Parent(pm, x).value, n - 1)
  }

  /** A repeated node on a chain lies on a cycle. */
  lemma RepeatIsCycle(pm: ParentMap, x: Id, i: nat, j: nat, y: Id)
    requires i < j && Up(pm, x, i) == Some(y) && Up(pm, x, j) == Some(y)
    ensures Up(pm, y, j - i) == Some(y) && !Acyclic(pm) && !Finite(pm, x)
  {
    UpAdd(pm, x, i, j - i);
    forall n: nat ensures Up(pm, x, n).Some? {
      if n <= i {
        UpAdd(pm, x, n, i - n);
      } else {
        UpAdd(pm, x, i, n - i);
        CycleNeverEnds(pm, y, j - i, n - i);
      }
    }
  }

  lemma AcyclicIsFinite(pm: ParentMap, x: Id)
    requires Acyclic(pm)
    ensures Finite(pm, x)
  {
    if !Finite(pm, x) {
      var n := |pm.Keys|;
      assert Up(pm, x, n + 1).Some? && Up(pm, x, n).Some?;
      var s := Chain(pm, x, n);
      forall i | 0 <= i <= n ensures s[i] in pm.Keys {
        assert Up(pm, x, i) == Some(s[i]);
        assert Up(pm, x, i + 1).Some?;
        UpAdd(pm, x, i, 1);
        assert Up(pm, s[i], 1).Some?;
      }
      if NoDup(s) { NoDupBound(s, pm.Keys); }
      var i, j :| 0 <= i < j < |s| && s[i] == s[j];
      RepeatIsCycle(pm, x, i, j, s[i]);
    }
  }

  /** On an acyclic hierarchy, re-parenting keeps it acyclic exactly when the moved node's own
      chain still ends. */
  lemma ReparentAcyclic(pm: ParentMap, target: Id, parent: Option<Id>)
    requires Acyclic(pm)
    ensures Finite(pm[target := parent], target) <==> Acyclic(pm[target := parent])
  {
    var pm' := pm[target := parent];
    if Acyclic(pm') { AcyclicIsFinite(pm', target); }
    if Finite(pm', target) {
      forall x, n: nat | n >= 1 ensures Up(pm', x, n) != Some(x) {
        if Up(pm', x, n) == Some(x) {
          if i: nat :| i < n && Up(pm', x, i) == Some(target) {
            UpAdd(pm', x, i, n);
            UpAdd(pm', x, n, i);
            RepeatIsCycle(pm', target, 0, n, target);
          } else {
            SameChain(pm', pm, target, x, n);
          }
        }
      }
    }
  }

  // ---- CheckCircularReference ----

  datatype Organization = Organization(id: Id, parent: Option<Id>, name: string)

  datatype CycleError = OwnParent | TargetIsAncestor | ExistingCycle

  ghost predicate UniqueIds(orgs: seq<Organization>) {
    forall i, j :: 0 <= i < j < |orgs| ==> orgs[i].id != orgs[j].id
  }

  function ParentMapOf(orgs: seq<Organization>): ParentMap {
    if orgs == [] then map[]
    else ParentMapOf(orgs[..|orgs| - 1])[orgs[|orgs| - 1].id := orgs[|orgs| - 1].parent]
  }

  method BuildParentMap(orgs: seq<Organization>) returns (pm: ParentMap)
    ensures pm == ParentMapOf(orgs)
  {
    pm := map[];
    for i := 0 to |orgs|
      invariant pm == ParentMapOf(orgs[..i])
    {
      assert orgs[..i + 1][..i] == orgs[..i];
      pm := pm[orgs[i].id := orgs[i].parent];
    }
    assert orgs[..|orgs|] == orgs;
  }

  predicate IsRootRef(p: Option<Id>) {
    p.None? || p.value == NIL_ID
  }

  /** Every identifier the walk from `p` can meet. */
  ghost function Mentioned(pm: ParentMap, p: Id): set<Id> {
    {p} + pm.Keys + set x | x in pm && pm[x].Some? :: pm[x].value
  }

  /** `visited` holds the nodes met so far on the way up from `start`. */
  ghost predicate Walked(pm: ParentMap, start: Id, target: Id, k: nat, visited: set<Id>) {
    && (forall v :: v in visited ==> exists i: nat :: i < k && Up(pm, start, i) == Some(v))
    && (forall i: nat :: i < k ==> Up(pm, start, i).Some? && Up(pm, start, i) != Some(target))
  }

  /** Meeting the target above the new parent closes a cycle through it. */
  lemma HitTarget(pm: ParentMap, target: Id, p: Id, k: nat)
    requires p != NIL_ID && Up(pm, p, k) == Some(target)
    requires forall i: nat :: i < k ==> Up(pm, p, i) != Some(target)
    ensures !Finite(pm[target := Some(p)], target)
  {
    var pm' := pm[target := Some(p)];
    SameChain(pm, pm', target, p, k);
    assert Up(pm', target, k + 1) == Some(target);
    RepeatIsCycle(pm', target, 0, k + 1, target);
  }

  lemma HitVisited(pm: ParentMap, target: Id, p: Id, i: nat, k: nat, y: Id)
    requires p != NIL_ID && i < k && Up(pm, p, i) == Some(y) && Up(pm, p, k) == Some(y)
    requires forall j: nat :: j < k ==> Up(pm, p, j) != Some(target)
    ensures !Finite(pm[target := Some(p)], target)
  {
    var pm' := pm[target := Some(p)];
    SameChain(pm, pm', target, p, k);
    assert Up(pm', target, i + 1) == Some(y) && Up(pm', target, k + 1) == Some(y);
    RepeatIsCycle(pm', target, i + 1, k + 1, y);
  }

  lemma ReachedTop(pm: ParentMap, target: Id, p: Id, k: nat)
    requires p != NIL_ID && Up(pm, p, k).None?
    requires forall i: nat :: i < k ==> Up(pm, p, i) != Some(target)
    ensures Finite(pm[target := Some(p)], target)
  {
    var pm' := pm[target := Some(p)];
    SameChain(pm, pm', target, p, k);
    assert Up(pm', target, k + 1).None?;
  }

  /** `y` is met on the way up from `x`. */
  ghost predicate IsAncestor(pm: ParentMap, x: Id, y: Id) {
    exists n: nat :: n >= 1 && Up(pm, x, n) == Some(y)
  }

  /** Accepts a parent change exactly when the moved organization's chain of parents still ends,
      whatever state the rest of the hierarchy is in; on an acyclic hierarchy, exactly when the
      change keeps it acyclic. */
  method CheckCircularReference(orgs: seq<Organization>, target: Id, newParent: Option<Id>)
    returns (err: Option<CycleError>)
    ensures err.None? <==> Finite(ParentMapOf(orgs)[target := newParent], target)
    ensures Acyclic(ParentMapOf(orgs)) ==> (err.None? <==> Acyclic(ParentMapOf(orgs)[target := newParent]))
    ensures IsRootRef(newParent) ==> err.None?
    ensures err == Some(OwnParent) <==> !IsRootRef(newParent) && newParent.value == target
    ensures err == Some(TargetIsAncestor) ==> newParent.Some? && IsAncestor(ParentMapOf(orgs), newParent.value, target)
    ensures err == Some(ExistingCycle) ==> newParent.Some? && !Finite(ParentMapOf(orgs), newParent.value)
  {
    ghost var changed := ParentMapOf(orgs)[target := newParent];
    if Acyclic(ParentMapOf(orgs)) { ReparentAcyclic(ParentMapOf(orgs), target, newParent); }
    hide Acyclic;
    if IsRootRef(newParent) {
      assert Up(changed, target, 1).None?;
      return None;
    }
    var p := newParent.value;
    if p == target {
      assert Up(ParentMapOf(orgs), p, 0) == Some(target);
      HitTarget(ParentMapOf(orgs), target, p, 0);
      return Some(OwnParent);
    }
    var pm := BuildParentMap(orgs);
    var current, visited := newParent, {};
    ghost var k: nat := 0;
    while !IsRootRef(current)
      invariant visited <= Mentioned(pm, p) && (current.Some? ==> current.value in Mentioned(pm, p))
      invariant Walked(pm, p, target, k, visited)
      invariant Up(pm, p, k) == if IsRootRef(current) then None else current
      decreases Mentioned(pm, p) - visited
    {
      if current.value == target {
        HitTarget(pm, target, p, k);
        return Some(TargetIsAncestor);
      }
      if current.value in visited {
        ghost var i: nat :| i < k && Up(pm, p, i) == Some(current.value);
        HitVisited(pm, target, p, i, k, current.value);
        RepeatIsCycle(pm, p, i, k, current.value);
        return Some(ExistingCycle);
      }
      visited := visited + {current.value};
      UpAdd(pm, p, k, 1);
      assert Up(pm, current.value, 1) == Parent(pm, current.value);
      current := if current.value in pm then pm[current.value] else None;
      k := k + 1;
    }
    ReachedTop(pm, target, p, k);
    return None;
  }
}
