/** `GetTree` of `internal/core/usecase/organization/organization_usecase.go`: the forest built from a
    tenant's rows, on the tables that serial runs of `Create` and `Update` produce. */
module TenantTree {
  import opened Shared
  import opened Hierarchy
  import opened OrganizationUsecase
  import opened OrganizationTree

  /** No organization of the tenant hangs below another tenant's. */
  ghost predicate KeepsToItself(pm: ParentMap) {
    forall x :: x in pm && pm[x].Some? ==> pm[x].value in pm
  }

  ghost predicate ShowsAll(pm: ParentMap, forest: seq<Node>) {
    forall x :: x in pm ==> x in FlattenAll(forest)
  }

  lemma {:induction false} ChainStaysInside(pm: ParentMap, x: Id, n: nat)
    requires KeepsToItself(pm) && x in pm
    ensures Up(pm, x, n).Some? ==> Up(pm, x, n).value in pm
    decreases n
  {
    if n > 0 && Parent(pm, x).Some? { ChainStaysInside(pm, Parent(pm, x).value, n - 1); }
  }

  lemma {:induction false} LastOnChain(pm: ParentMap, x: Id, n: nat) returns (d: nat)
    requires Up(pm, x, n).None?
    ensures Up(pm, x, d).Some? && Up(pm, x, d + 1).None?
    decreases n
  {
    if Up(pm, x, n - 1).Some? { d := n - 1; } else { d := LastOnChain(pm, x, n - 1); }
  }

  lemma InsideReachesRoot(pm: ParentMap, x: Id)
    requires Acyclic(pm) && KeepsToItself(pm) && x in pm
    ensures ReachesRoot(pm, x)
  {
    AcyclicIsFinite(pm, x);
    var n: nat :| Up(pm, x, n).None?;
    var d := LastOnChain(pm, x, n);
    ChainStaysInside(pm, x, d);
    assert HasDepth(pm, x, d);
  }

  lemma OutsideIsDropped(pm: ParentMap, x: Id)
    requires x in pm && pm[x].Some? && pm[x].value !in pm && pm[x].value != NIL_ID
    ensures !ReachesRoot(pm, x)
  {
    var p := pm[x].value;
    assert Up(pm, x, 1) == Up(pm, p, 0) == Some(p) && Up(pm, x, 2) == Up(pm, p, 1) == None;
    forall d: nat ensures !HasDepth(pm, x, d) {
      if d >= 2 { UpAdd(pm, x, 2, d - 2); }
    }
  }

  /** The tree shows organizations of the tenant only, each at most once. On every table that keeps
      the hierarchies acyclic, it shows all of them if and only if none hangs below another
      tenant's. */
  lemma TreeIsComplete(t: Table, tenant: Id, orgs: seq<Organization>, forest: seq<Node>)
    requires UniqueIds(orgs) && ParentMapOf(orgs) == TenantParents(t, tenant)
    requires ShapedAll(orgs, forest, RootsOf(orgs))
    ensures NoDup(FlattenAll(forest)) && Elems(FlattenAll(forest)) <= TenantParents(t, tenant).Keys
    ensures Sound(t) ==> (ShowsAll(TenantParents(t, tenant), forest) <==> KeepsToItself(TenantParents(t, tenant)))
  {
    var pm := TenantParents(t, tenant);
    ForestIsExact(orgs, forest);
    if !Sound(t) { return; }
    assert Acyclic(pm);
    if KeepsToItself(pm) {
      forall x | x in pm ensures x in FlattenAll(forest) { InsideReachesRoot(pm, x); }
    } else {
      var x :| x in pm && pm[x].Some? && pm[x].value !in pm;
      OutsideIsDropped(pm, x);
    }
  }

  // ---- The forest, read off the table ----

  function IdsOf(nodes: seq<Node>): (ids: seq<Id>)
    ensures |ids| == |nodes| && forall i :: 0 <= i < |nodes| ==> ids[i] == nodes[i].org.id
  {
    seq(|nodes|, i requires 0 <= i < |nodes| => nodes[i].org.id)
  }

  ghost predicate IsChild(t: Table, tenant: Id, x: Id, p: Id) {
    x in t && t[x].tenant == tenant && t[x].parent == Some(p) && p != NIL_ID
  }

  ghost predicate IsRoot(t: Table, tenant: Id, x: Id) {
    x in t && t[x].tenant == tenant && (t[x].parent == None || t[x].parent == Some(NIL_ID))
  }

  /** A node holds a row of the tenant, and its children, once each, are exactly the rows of the tenant
      whose parent it is, each with its own children in the same way. */
  ghost predicate Mirrors(t: Table, tenant: Id, node: Node)
    decreases node
  {
    && IsRowOf(t, tenant, node.org) && NoDup(IdsOf(node.children))
    && (forall x :: x in IdsOf(node.children) <==> IsChild(t, tenant, x, node.org.id))
    && forall c :: c in node.children ==> Mirrors(t, tenant, c)
  }

  /** The roots are the rows without a parent. */
  ghost predicate MirrorsAll(t: Table, tenant: Id, forest: seq<Node>) {
    && NoDup(IdsOf(forest)) && (forall x :: x in IdsOf(forest) <==> IsRoot(t, tenant, x))
    && forall c :: c in forest ==> Mirrors(t, tenant, c)
  }

  lemma {:induction false} ShapedAt(orgs: seq<Organization>, nodes: seq<Node>, expected: seq<Organization>)
    requires ShapedAll(orgs, nodes, expected)
    ensures |nodes| == |expected|
    ensures forall i :: 0 <= i < |nodes| ==> nodes[i].org == expected[i] && Shaped(orgs, nodes[i])
    decreases |nodes|
  {
    if nodes != [] { ShapedAt(orgs, nodes[1..], expected[1..]); }
  }

  lemma ExpectedIds(orgs: seq<Organization>, nodes: seq<Node>, expected: seq<Organization>)
    requires ShapedAll(orgs, nodes, expected) && UniqueIds(expected)
    ensures NoDup(IdsOf(nodes)) && forall x :: x in IdsOf(nodes) <==> HasId(expected, x)
  {
    ShapedAt(orgs, nodes, expected);
    forall x ensures x in IdsOf(nodes) <==> HasId(expected, x) {
      if x in IdsOf(nodes) {
        var i :| 0 <= i < |nodes| && IdsOf(nodes)[i] == x;
        assert expected[i] in expected;
      }
      if HasId(expected, x) {
        var o :| o in expected && o.id == x;
        var i :| 0 <= i < |expected| && expected[i] == o;
        assert IdsOf(nodes)[i] == x;
      }
    }
  }

  lemma ChildIds(t: Table, tenant: Id, orgs: seq<Organization>, p: Id, x: Id)
    requires ListsRows(t, tenant, orgs)
    ensures HasId(ChildrenOf(orgs, p), x) <==> IsChild(t, tenant, x, p)
  {
    ChildrenOfExact(orgs, p);
    if IsChild(t, tenant, x, p) {
      var o := Organization(x, t[x].parent, t[x].name);
      assert IsRowOf(t, tenant, o) && o in ChildrenOf(orgs, p);
    }
  }

  lemma RootIds(t: Table, tenant: Id, orgs: seq<Organization>, x: Id)
    requires ListsRows(t, tenant, orgs)
    ensures HasId(RootsOf(orgs), x) <==> IsRoot(t, tenant, x)
  {
    RootsOfExact(orgs);
    if IsRoot(t, tenant, x) {
      var o := Organization(x, t[x].parent, t[x].name);
      assert IsRowOf(t, tenant, o) && o in RootsOf(orgs);
    }
  }

  lemma {:induction false} ShapedMirrors(t: Table, tenant: Id, orgs: seq<Organization>, node: Node)
    requires ListsRows(t, tenant, orgs) && Shaped(orgs, node)
    ensures Mirrors(t, tenant, node)
    decreases node
  {
    var p := node.org.id;
    ChildrenOfExact(orgs, p);
    ExpectedIds(orgs, node.children, ChildrenOf(orgs, p));
    ShapedAt(orgs, node.children, ChildrenOf(orgs, p));
    forall x ensures x in IdsOf(node.children) <==> IsChild(t, tenant, x, p) { ChildIds(t, tenant, orgs, p, x); }
    forall c | c in node.children ensures Mirrors(t, tenant, c) {
      var i :| 0 <= i < |node.children| && node.children[i] == c;
      ShapedMirrors(t, tenant, orgs, c);
    }
  }

  lemma ForestMirrors(t: Table, tenant: Id, orgs: seq<Organization>, forest: seq<Node>)
    requires ListsRows(t, tenant, orgs) && ShapedAll(orgs, forest, RootsOf(orgs))
    ensures MirrorsAll(t, tenant, forest)
  {
    RootsOfExact(orgs);
    ExpectedIds(orgs, forest, RootsOf(orgs));
    ShapedAt(orgs, forest, RootsOf(orgs));
    forall x ensures x in IdsOf(forest) <==> IsRoot(t, tenant, x) { RootIds(t, tenant, orgs, x); }
    forall c | c in forest ensures Mirrors(t, tenant, c) {
      var i :| 0 <= i < |forest| && forest[i] == c;
      ShapedMirrors(t, tenant, orgs, c);
    }
  }

  method GetTree(t: Table, tenant: Id) returns (forest: seq<Node>)
    ensures MirrorsAll(t, tenant, forest)
    ensures exists orgs :: ListsRows(t, tenant, orgs) && ShapedAll(orgs, forest, RootsOf(orgs))
    ensures NoDup(FlattenAll(forest)) && Elems(FlattenAll(forest)) <= TenantParents(t, tenant).Keys
    ensures Sound(t) ==> (ShowsAll(TenantParents(t, tenant), forest) <==> KeepsToItself(TenantParents(t, tenant)))
  {
    hide Sound, NoDup, ShowsAll, KeepsToItself, MirrorsAll, IsRowOf;
    var orgs := ListByTenant(t, tenant);
    forest := BuildTree(orgs);
    TreeIsComplete(t, tenant, orgs, forest);
    ForestMirrors(t, tenant, orgs, forest);
  }
}
