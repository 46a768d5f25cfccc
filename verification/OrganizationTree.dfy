/** `BuildTree` of `internal/core/domain/organization/organization.go`: a flat list turned into a
    forest by a recursion whose depth is bounded only by the acyclicity of what hangs below a root. */
module OrganizationTree {
  import opened Shared
  import opened Hierarchy

  datatype Node = Node(org: Organization, children: seq<Node>)

  /** The organizations without a parent, in input order. */
  function RootsOf(orgs: seq<Organization>): seq<Organization> {
    if orgs == [] then [] else
      var init, last := orgs[..|orgs| - 1], orgs[|orgs| - 1];
      if IsRootRef(last.parent) then RootsOf(init) + [last] else RootsOf(init)
  }

  predicate IsChildOf(o: Organization, id: Id) {
    !IsRootRef(o.parent) && o.parent.value == id
  }

  /** The organizations whose parent is `id`, in input order. */
  function ChildrenOf(orgs: seq<Organization>, id: Id): seq<Organization> {
    if orgs == [] then [] else
      var init, last := orgs[..|orgs| - 1], orgs[|orgs| - 1];
      if IsChildOf(last, id) then ChildrenOf(init, id) + [last] else ChildrenOf(init, id)
  }

  /** `node` carries an input organization, and its children are exactly that organization's
      children, in input order, each shaped the same way. */
  ghost predicate Shaped(orgs: seq<Organization>, node: Node)
    decreases node, 1
  {
    node.org in orgs && ShapedAll(orgs, node.children, ChildrenOf(orgs, node.org.id))
  }

  ghost predicate ShapedAll(orgs: seq<Organization>, nodes: seq<Node>, expected: seq<Organization>)
    decreases nodes, 0
  {
    if nodes == [] then expected == []
    else expected != [] && nodes[0].org == expected[0] && Shaped(orgs, nodes[0])
         && ShapedAll(orgs, nodes[1..], expected[1..])
  }

  /** The identifiers of a tree in preorder. */
  function Flatten(node: Node): seq<Id>
    decreases node, 1
  {
    [node.org.id] + FlattenAll(node.children)
  }

  function FlattenAll(nodes: seq<Node>): seq<Id>
    decreases nodes, 0
  {
    if nodes == [] then [] else Flatten(nodes[0]) + FlattenAll(nodes[1..])
  }

  /** Following parents `d` times from `x` reaches a listed organization that has no parent. */
  ghost predicate HasDepth(pm: ParentMap, x: Id, d: nat) {
    Up(pm, x, d).Some? && Up(pm, x, d).value in pm && Up(pm, x, d + 1).None?
  }

  ghost predicate ReachesRoot(pm: ParentMap, x: Id) {
    exists d: nat :: HasDepth(pm, x, d)
  }

  lemma DepthUnique(pm: ParentMap, x: Id, d: nat, e: nat)
    requires HasDepth(pm, x, d) && HasDepth(pm, x, e)
    ensures d == e
  {
    if d < e { UpAdd(pm, x, d + 1, e - d - 1); }
    if e < d { UpAdd(pm, x, e + 1, d - e - 1); }
  }

  lemma DepthAbove(pm: ParentMap, x: Id, n: nat, y: Id, d: nat)
    requires Up(pm, x, n) == Some(y) && HasDepth(pm, y, d)
    ensures HasDepth(pm, x, n + d)
  {
    UpAdd(pm, x, n, d);
    UpAdd(pm, x, n, d + 1);
  }

  /** The chain of a node at depth `d` visits `d + 1` different organizations. */
  lemma DepthBound(pm: ParentMap, x: Id, d: nat)
    requires HasDepth(pm, x, d)
    ensures d < |pm.Keys|
  {
    var s := Chain(pm, x, d);
    forall i | 0 <= i <= d ensures s[i] in pm.Keys {
      assert Up(pm, x, i) == Some(s[i]);
      if i < d {
        assert Up(pm, x, i + 1) == Some(s[i + 1]);
        UpAdd(pm, x, i, 1);
        assert Up(pm, s[i], 1).Some?;
      }
    }
    forall i, j | 0 <= i < j < |s| ensures s[i] != s[j] {
      assert Up(pm, x, i) == Some(s[i]) && Up(pm, x, j) == Some(s[j]);
      if s[i] == s[j] {
        RepeatIsCycle(pm, x, i, j, s[i]);
        assert Finite(pm, x);
      }
    }
    NoDupBound(s, pm.Keys);
  }

  /** With unique identifiers the parent map is the list, keyed by identifier. */
  ghost predicate Keyed(orgs: seq<Organization>, pm: ParentMap) {
    && (forall o :: o in orgs ==> o.id in pm && pm[o.id] == o.parent)
    && (forall x :: x in pm ==> HasId(orgs, x))
    && |pm.Keys| == |orgs|
  }

  ghost predicate HasId(orgs: seq<Organization>, x: Id) {
    exists o :: o in orgs && o.id == x
  }

  lemma KeysOneMore(pm: ParentMap, x: Id, p: Option<Id>)
    requires x !in pm
    ensures |pm[x := p].Keys| == |pm.Keys| + 1
  {
    assert pm[x := p].Keys == pm.Keys + {x};
  }

  lemma KeyedOneMore(orgs: seq<Organization>, pm: ParentMap, last: Organization)
    requires Keyed(orgs, pm) && forall o :: o in orgs ==> o.id != last.id
    ensures Keyed(orgs + [last], pm[last.id := last.parent])
  {
    assert !HasId(orgs, last.id);
    hide HasId;
    KeysOneMore(pm, last.id, last.parent);
    assert forall o :: o in orgs + [last] ==> o in orgs || o == last;
  }

  lemma {:induction false} ParentMapExact(orgs: seq<Organization>)
    requires UniqueIds(orgs)
    ensures Keyed(orgs, ParentMapOf(orgs))
  {
    if orgs != [] {
      var init, last := orgs[..|orgs| - 1], orgs[|orgs| - 1];
      ParentMapExact(init);
      assert orgs == init + [last];
      hide UniqueIds, Keyed;
      KeyedOneMore(init, ParentMapOf(init), last);
    }
  }

  lemma {:induction false} ChildrenOfExact(orgs: seq<Organization>, id: Id)
    ensures forall o :: o in ChildrenOf(orgs, id) <==> o in orgs && IsChildOf(o, id)
    ensures UniqueIds(orgs) ==> UniqueIds(ChildrenOf(orgs, id))
  {
    if orgs != [] {
      var init, last := orgs[..|orgs| - 1], orgs[|orgs| - 1];
      ChildrenOfExact(init, id);
      assert orgs == init + [last];
      assert UniqueIds(orgs) ==> forall o :: o in init ==> o.id != last.id;
    }
  }

  lemma {:induction false} RootsOfExact(orgs: seq<Organization>)
    ensures forall o :: o in RootsOf(orgs) <==> o in orgs && IsRootRef(o.parent)
    ensures UniqueIds(orgs) ==> UniqueIds(RootsOf(orgs))
  {
    if orgs != [] {
      var init, last := orgs[..|orgs| - 1], orgs[|orgs| - 1];
      RootsOfExact(init);
      assert orgs == init + [last];
      assert UniqueIds(orgs) ==> forall o :: o in init ==> o.id != last.id;
    }
  }

  lemma ChildDepth(orgs: seq<Organization>, id: Id, d: nat, c: Organization)
    requires UniqueIds(orgs) && HasDepth(ParentMapOf(orgs), id, d) && c in ChildrenOf(orgs, id)
    ensures HasDepth(ParentMapOf(orgs), c.id, d + 1)
  {
    var pm := ParentMapOf(orgs);
    ParentMapExact(orgs);
    ChildrenOfExact(orgs, id);
    assert Up(pm, c.id, 1) == Up(pm, id, 0);
    DepthAbove(pm, c.id, 1, id, d);
  }

  lemma RootDepth(orgs: seq<Organization>, r: Organization)
    requires UniqueIds(orgs) && r in RootsOf(orgs)
    ensures HasDepth(ParentMapOf(orgs), r.id, 0)
  {
    ParentMapExact(orgs);
    RootsOfExact(orgs);
  }

  // ---- The construction ----

  /** The two maps filled by the first loop describe `orgs`. */
  ghost predicate Indexed(orgs: seq<Organization>, orgMap: map<Id, Organization>,
                          childrenMap: map<Id, seq<Organization>>) {
    && (forall o :: o in orgs ==> o.id in orgMap && orgMap[o.id] == o)
    && (forall x :: x in orgMap ==> orgMap[x] in orgs && orgMap[x].id == x)
    && (forall id :: Lookup(childrenMap, id) == ChildrenOf(orgs, id))
  }

  /** The entry that the first loop makes for a non-root organization. */
  function AddChild(m: map<Id, seq<Organization>>, o: Organization): map<Id, seq<Organization>>
    requires !IsRootRef(o.parent)
  {
    m[o.parent.value := Lookup(m, o.parent.value) + [o]]
  }

  lemma IndexOne(orgs: seq<Organization>, orgMap: map<Id, Organization>, childrenMap: map<Id, seq<Organization>>,
                 o: Organization)
    requires Indexed(orgs, orgMap, childrenMap) && forall x :: x in orgs ==> x.id != o.id
    ensures Indexed(orgs + [o], orgMap[o.id := o],
                    if IsRootRef(o.parent) then childrenMap else AddChild(childrenMap, o))
  {
    var next := orgs + [o];
    assert next[..|next| - 1] == orgs;
    var childrenMap' := if IsRootRef(o.parent) then childrenMap else AddChild(childrenMap, o);
    forall id ensures Lookup(childrenMap', id) == ChildrenOf(next, id) {
      assert Lookup(childrenMap, id) == ChildrenOf(orgs, id);
    }
    assert forall x :: x in next <==> x in orgs || x == o;
  }

  method Index(orgs: seq<Organization>)
    returns (orgMap: map<Id, Organization>, childrenMap: map<Id, seq<Organization>>, roots: seq<Organization>)
    requires UniqueIds(orgs)
    ensures Indexed(orgs, orgMap, childrenMap) && roots == RootsOf(orgs)
  {
    orgMap, childrenMap, roots := map[], map[], [];
    assert Indexed(orgs[..0], orgMap, childrenMap);
    hide Indexed;
    for i := 0 to |orgs|
      invariant Indexed(orgs[..i], orgMap, childrenMap) && roots == RootsOf(orgs[..i])
    {
      var o := orgs[i];
      IndexOne(orgs[..i], orgMap, childrenMap, o);
      ghost var next := orgs[..i + 1];
      assert next == orgs[..i] + [o] && next[..|next| - 1] == orgs[..i];
      orgMap := orgMap[o.id := o];
      if IsRootRef(o.parent) {
        roots := roots + [o];
      } else {
        childrenMap := AddChild(childrenMap, o);
      }
    }
    assert orgs[..|orgs|] == orgs;
  }

  lemma {:induction false} ShapedAppend(orgs: seq<Organization>, nodes: seq<Node>, expected: seq<Organization>,
                                        node: Node)
    requires ShapedAll(orgs, nodes, expected) && Shaped(orgs, node)
    ensures ShapedAll(orgs, nodes + [node], expected + [node.org])
    decreases |nodes|
  {
    var all, exp := nodes + [node], expected + [node.org];
    if nodes == [] {
      assert all[1..] == [] && exp[1..] == [];
    } else {
      ShapedAppend(orgs, nodes[1..], expected[1..], node);
      assert all[1..] == nodes[1..] + [node] && exp[1..] == expected[1..] + [node.org];
    }
  }

  /** Every listed child can be built, one level further down and still within the bound. */
  lemma ChildReady(orgs: seq<Organization>, orgMap: map<Id, Organization>, childrenMap: map<Id, seq<Organization>>,
                   id: Id, depth: nat, c: Organization)
    requires UniqueIds(orgs) && Indexed(orgs, orgMap, childrenMap)
    requires HasDepth(ParentMapOf(orgs), id, depth) && c in Lookup(childrenMap, id)
    ensures HasDepth(ParentMapOf(orgs), c.id, depth + 1) && depth + 1 < |orgs|
    ensures c.id in orgMap && orgMap[c.id] == c
  {
    ParentMapExact(orgs);
    ChildrenOfExact(orgs, id);
    ChildDepth(orgs, id, depth, c);
    DepthBound(ParentMapOf(orgs), c.id, depth + 1);
  }

  /** The recursive closure `buildNode`. */
  method BuildNode(ghost orgs: seq<Organization>, orgMap: map<Id, Organization>,
                   childrenMap: map<Id, seq<Organization>>, id: Id, ghost depth: nat)
    returns (node: Node)
    requires UniqueIds(orgs) && Indexed(orgs, orgMap, childrenMap)
    requires HasDepth(ParentMapOf(orgs), id, depth) && id in orgMap
    ensures node.org == orgMap[id] && Shaped(orgs, node)
    decreases |orgs| - depth
  {
    var raw := Lookup(childrenMap, id);
    assert raw == ChildrenOf(orgs, id) && orgMap[id] in orgs && orgMap[id].id == id;
    hide Indexed, UniqueIds, HasDepth;
    var children: seq<Node> := [];
    for i := 0 to |raw|
      invariant ShapedAll(orgs, children, raw[..i])
    {
      ChildReady(orgs, orgMap, childrenMap, id, depth, raw[i]);
      var child := BuildNode(orgs, orgMap, childrenMap, raw[i].id, depth + 1);
      ShapedAppend(orgs, children, raw[..i], child);
      assert raw[..i + 1] == raw[..i] + [raw[i]];
      children := children + [child];
    }
    assert raw[..|raw|] == raw;
    node := Node(orgMap[id], children);
  }

  lemma RootReady(orgs: seq<Organization>, orgMap: map<Id, Organization>, childrenMap: map<Id, seq<Organization>>,
                  r: Organization)
    requires UniqueIds(orgs) && Indexed(orgs, orgMap, childrenMap) && r in RootsOf(orgs)
    ensures HasDepth(ParentMapOf(orgs), r.id, 0) && r.id in orgMap && orgMap[r.id] == r
  {
    RootsOfExact(orgs);
    RootDepth(orgs, r);
  }

  method BuildTree(orgs: seq<Organization>) returns (forest: seq<Node>)
    requires UniqueIds(orgs)
    ensures ShapedAll(orgs, forest, RootsOf(orgs))
  {
    var orgMap, childrenMap, roots := Index(orgs);
    forest := [];
    hide Indexed, UniqueIds, HasDepth;
    for i := 0 to |roots|
      invariant ShapedAll(orgs, forest, roots[..i])
    {
      RootReady(orgs, orgMap, childrenMap, roots[i]);
      var node := BuildNode(orgs, orgMap, childrenMap, roots[i].id, 0);
      ShapedAppend(orgs, forest, roots[..i], node);
      assert roots[..i + 1] == roots[..i] + [roots[i]];
      forest := forest + [node];
    }
    assert roots[..|roots|] == roots;
  }

  // ---- What a correctly shaped forest contains ----

  /** `x` hangs at or below `top`. */
  ghost predicate Below(pm: ParentMap, x: Id, top: Id) {
    exists n: nat :: Up(pm, x, n) == Some(top)
  }

  lemma {:induction false} MembersAreBelow(orgs: seq<Organization>, node: Node, x: Id)
    requires UniqueIds(orgs) && Shaped(orgs, node) && x in Flatten(node)
    ensures Below(ParentMapOf(orgs), x, node.org.id)
    decreases node, 1
  {
    var pm := ParentMapOf(orgs);
    if x == node.org.id {
      assert Up(pm, x, 0) == Some(x);
    } else {
      var c := MembersOfAll(orgs, node.children, ChildrenOf(orgs, node.org.id), x);
      ChildrenOfExact(orgs, node.org.id);
      ParentMapExact(orgs);
      var n: nat :| Up(pm, x, n) == Some(c.id);
      UpAdd(pm, x, n, 1);
      assert Up(pm, c.id, 1) == Up(pm, node.org.id, 0);
    }
  }

  lemma {:induction false} MembersOfAll(orgs: seq<Organization>, nodes: seq<Node>, expected: seq<Organization>, x: Id)
    returns (c: Organization)
    requires UniqueIds(orgs) && ShapedAll(orgs, nodes, expected) && x in FlattenAll(nodes)
    ensures c in expected && Below(ParentMapOf(orgs), x, c.id)
    decreases nodes, 0
  {
    if x in Flatten(nodes[0]) {
      MembersAreBelow(orgs, nodes[0], x);
      c := expected[0];
    } else {
      c := MembersOfAll(orgs, nodes[1..], expected[1..], x);
    }
  }

  /** The last step of a chain that ends at `top` is one of its children. */
  lemma ChildOnTheWay(orgs: seq<Organization>, x: Id, n: nat, top: Id) returns (c: Organization)
    requires UniqueIds(orgs) && n > 0 && Up(ParentMapOf(orgs), x, n) == Some(top)
    ensures c in ChildrenOf(orgs, top) && Up(ParentMapOf(orgs), x, n - 1) == Some(c.id)
  {
    var pm := ParentMapOf(orgs);
    UpAdd(pm, x, n - 1, 1);
    var y := Up(pm, x, n - 1).value;
    assert Up(pm, y, 1) == Some(top) && Parent(pm, y) == Some(top);
    ParentMapExact(orgs);
    ChildrenOfExact(orgs, top);
    assert HasId(orgs, y);
    c :| c in orgs && c.id == y;
  }

  lemma {:induction false} BelowAreMembers(orgs: seq<Organization>, node: Node, x: Id, n: nat)
    requires UniqueIds(orgs) && Shaped(orgs, node) && Up(ParentMapOf(orgs), x, n) == Some(node.org.id)
    ensures x in Flatten(node)
    decreases node, 1
  {
    if n > 0 {
      var c := ChildOnTheWay(orgs, x, n, node.org.id);
      BelowAllAreMembers(orgs, node.children, ChildrenOf(orgs, node.org.id), c, x, n - 1);
    }
  }

  lemma {:induction false} BelowAllAreMembers(orgs: seq<Organization>, nodes: seq<Node>, expected: seq<Organization>,
                                              c: Organization, x: Id, n: nat)
    requires UniqueIds(orgs) && ShapedAll(orgs, nodes, expected) && c in expected
    requires Up(ParentMapOf(orgs), x, n) == Some(c.id)
    ensures x in FlattenAll(nodes)
    decreases nodes, 0
  {
    if expected[0] == c {
      BelowAreMembers(orgs, nodes[0], x, n);
    } else {
      BelowAllAreMembers(orgs, nodes[1..], expected[1..], c, x, n);
    }
  }

  lemma {:induction false} NoDupTree(orgs: seq<Organization>, node: Node, d: nat)
    requires UniqueIds(orgs) && Shaped(orgs, node) && HasDepth(ParentMapOf(orgs), node.org.id, d)
    ensures NoDup(Flatten(node))
    decreases node, 1
  {
    var pm := ParentMapOf(orgs);
    var expected := ChildrenOf(orgs, node.org.id);
    ChildrenOfExact(orgs, node.org.id);
    forall c | c in expected ensures HasDepth(pm, c.id, d + 1) { ChildDepth(orgs, node.org.id, d, c); }
    NoDupForest(orgs, node.children, expected, d + 1);
    if node.org.id in FlattenAll(node.children) {
      var c := MembersOfAll(orgs, node.children, expected, node.org.id);
      var n: nat :| Up(pm, node.org.id, n) == Some(c.id);
      DepthAbove(pm, node.org.id, n, c.id, d + 1);
      DepthUnique(pm, node.org.id, d, n + d + 1);
    }
  }

  lemma {:induction false} NoDupForest(orgs: seq<Organization>, nodes: seq<Node>, expected: seq<Organization>, d: nat)
    requires UniqueIds(orgs) && ShapedAll(orgs, nodes, expected) && UniqueIds(expected)
    requires forall c :: c in expected ==> HasDepth(ParentMapOf(orgs), c.id, d)
    ensures NoDup(FlattenAll(nodes))
    decreases nodes, 0
  {
    if nodes != [] {
      var pm := ParentMapOf(orgs);
      NoDupTree(orgs, nodes[0], d);
      NoDupForest(orgs, nodes[1..], expected[1..], d);
      forall x | x in Flatten(nodes[0]) ensures x !in FlattenAll(nodes[1..]) {
        if x in FlattenAll(nodes[1..]) {
          MembersAreBelow(orgs, nodes[0], x);
          var c := MembersOfAll(orgs, nodes[1..], expected[1..], x);
          var n: nat :| Up(pm, x, n) == Some(expected[0].id);
          var m: nat :| Up(pm, x, m) == Some(c.id);
          DepthAbove(pm, x, n, expected[0].id, d);
          DepthAbove(pm, x, m, c.id, d);
          DepthUnique(pm, x, n + d, m + d);
        }
      }
      NoDupConcat(Flatten(nodes[0]), FlattenAll(nodes[1..]));
    }
  }

  lemma ShownReachesRoot(orgs: seq<Organization>, forest: seq<Node>, x: Id)
    requires UniqueIds(orgs) && ShapedAll(orgs, forest, RootsOf(orgs)) && x in FlattenAll(forest)
    ensures ReachesRoot(ParentMapOf(orgs), x)
  {
    var pm := ParentMapOf(orgs);
    var r := MembersOfAll(orgs, forest, RootsOf(orgs), x);
    var n: nat :| Up(pm, x, n) == Some(r.id);
    RootDepth(orgs, r);
    DepthAbove(pm, x, n, r.id, 0);
  }

  lemma ReachesRootIsShown(orgs: seq<Organization>, forest: seq<Node>, x: Id)
    requires UniqueIds(orgs) && ShapedAll(orgs, forest, RootsOf(orgs)) && ReachesRoot(ParentMapOf(orgs), x)
    ensures x in FlattenAll(forest)
  {
    var pm := ParentMapOf(orgs);
    var d: nat :| HasDepth(pm, x, d);
    var top := Up(pm, x, d).value;
    ParentMapExact(orgs);
    RootsOfExact(orgs);
    assert HasId(orgs, top);
    var r :| r in orgs && r.id == top;
    UpAdd(pm, x, d, 1);
    assert Up(pm, top, 1) == None;
    BelowAllAreMembers(orgs, forest, RootsOf(orgs), r, x, d);
  }

  /** The forest shows every organization whose chain of parents reaches a listed root, exactly
      once, and nothing else: organizations on or below a cycle or a dangling parent are dropped. */
  lemma ForestIsExact(orgs: seq<Organization>, forest: seq<Node>)
    requires UniqueIds(orgs) && ShapedAll(orgs, forest, RootsOf(orgs))
    ensures NoDup(FlattenAll(forest))
    ensures forall x :: x in FlattenAll(forest) <==> ReachesRoot(ParentMapOf(orgs), x)
  {
    RootsOfExact(orgs);
    forall r | r in RootsOf(orgs) ensures HasDepth(ParentMapOf(orgs), r.id, 0) { RootDepth(orgs, r); }
    NoDupForest(orgs, forest, RootsOf(orgs), 0);
    hide UniqueIds, ReachesRoot, HasDepth, NoDup;
    forall x ensures x in FlattenAll(forest) <==> ReachesRoot(ParentMapOf(orgs), x) {
      if x in FlattenAll(forest) { ShownReachesRoot(orgs, forest, x); }
      if ReachesRoot(ParentMapOf(orgs), x) { ReachesRootIsShown(orgs, forest, x); }
    }
  }

  // ---- Input order ----

  /** `part` lists organizations of `orgs` in the order in which they stand there. */
  ghost predicate InOrder(part: seq<Organization>, orgs: seq<Organization>) {
    forall i, j :: 0 <= i < j < |part| ==> Before(orgs, part[i], part[j])
  }

  ghost predicate Before(orgs: seq<Organization>, x: Organization, y: Organization) {
    exists p, q :: 0 <= p < q < |orgs| && orgs[p] == x && orgs[q] == y
  }

  lemma InOrderSnoc(part: seq<Organization>, orgs: seq<Organization>, last: Organization, take: bool)
    requires InOrder(part, orgs) && forall o :: o in part ==> o in orgs
    ensures InOrder(if take then part + [last] else part, orgs + [last])
  {
    var part', orgs' := if take then part + [last] else part, orgs + [last];
    forall i, j | 0 <= i < j < |part'|
      ensures Before(orgs', part'[i], part'[j])
    {
      if j < |part| {
        assert Before(orgs, part[i], part[j]);
        var p, q :| 0 <= p < q < |orgs| && orgs[p] == part[i] && orgs[q] == part[j];
        assert orgs'[p] == part'[i] && orgs'[q] == part'[j];
      } else {
        assert part[i] in orgs;
        var p :| 0 <= p < |orgs| && orgs[p] == part[i];
        assert orgs'[p] == part'[i] && orgs'[|orgs|] == part'[j];
      }
    }
  }

  lemma NothingInOrder()
    ensures InOrder([], [])
  {
  }

  /** Roots and siblings keep the input order. */
  lemma {:induction false} KeepInputOrder(orgs: seq<Organization>, id: Id)
    ensures InOrder(RootsOf(orgs), orgs) && InOrder(ChildrenOf(orgs, id), orgs)
    decreases |orgs|
  {
    hide InOrder;
    if orgs == [] {
      NothingInOrder();
    } else {
      var init, last := orgs[..|orgs| - 1], orgs[|orgs| - 1];
      assert orgs == init + [last];
      KeepInputOrder(init, id);
      RootsOfExact(init);
      ChildrenOfExact(init, id);
      InOrderSnoc(RootsOf(init), init, last, IsRootRef(last.parent));
      InOrderSnoc(ChildrenOf(init, id), init, last, IsChildOf(last, id));
    }
  }
}
