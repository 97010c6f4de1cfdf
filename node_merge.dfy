/** The node-level part of `PermissionTree.merge`: a copied foreign tree is walked from its
    root; every local node met takes the foreign tree's mask at its path, foreign children at
    shared paths are walked in turn, and every other foreign child is grafted under the local
    node. The model walks the two trees together by key; the order of the walk does not matter
    because the subtrees it touches are disjoint. */
module NodeMerge {
  import opened Wrappers
  import opened Paths
  import opened Masks
  import opened PermissionNodes
  import opened NodeStructure

  /** copy(): a deep copy, each child re-created under its key. */
  function Copy(n: Node): (r: Node)
    ensures r.key == n.key && r.path == n.path && r.inherited == n.inherited
    ensures r.permissions == n.permissions && r.children.Keys == n.children.Keys
    decreases n
  {
    var cs := map k | k in n.children :: Copy(n.children[k]);
    assert cs.Keys == n.children.Keys;
    Node(n.key, n.path, n.inherited, n.permissions, cs)
  }

  /** A copy holds exactly the contents of the original. */
  lemma {:induction false} CopyIsEqual(n: Node)
    ensures Copy(n) == n
    decreases n
  {
    forall k | k in n.children
      ensures Copy(n).children[k] == n.children[k]
    {
      CopyIsEqual(n.children[k]);
    }
    assert Copy(n).children == n.children;
  }

  /** One step of the merge loop and the steps below it: the local node `a` takes the foreign
      tree's mask `g` at the path of the foreign node `b`; then every child of `b` whose path
      is shared is merged into the local child under the same key, and every other child of
      `b` is grafted under `a`, inheriting `a`'s new effective mask. Local children that `b`
      lacks are left as they are. */
  function MergeNode(a: Node, b: Node, shared: set<Path>, g: Path -> Mask): (r: Node)
    ensures r.key == a.key && r.path == a.path && r.inherited == a.inherited
    ensures r.permissions == Or(a.permissions, g(b.path))
    ensures r.children.Keys == a.children.Keys + b.children.Keys
    decreases b
  {
    var a1 := AddPermissions(a, g(b.path));
    var cs := map k | k in a1.children.Keys + b.children.Keys ::
      if k !in b.children then a1.children[k]
      else if b.children[k].path in shared && k in a1.children then
        MergeNode(a1.children[k], b.children[k], shared, g)
      else SetInherited(b.children[k], Eff(a1));
    assert cs.Keys == a.children.Keys + b.children.Keys;
    Node(a1.key, a1.path, a1.inherited, a1.permissions, cs)
  }

  /** Throughout the walk, the local and the foreign node sit at the same path, and a foreign
      child's path is shared exactly when the local node has a child under the same key. */
  predicate SharedAt(a: Node, b: Node, shared: set<Path>)
    decreases b
  {
    && a.path == b.path
    && forall k | k in b.children ::
      && (b.children[k].path in shared <==> k in a.children)
      && (k in a.children ==> SharedAt(a.children[k], b.children[k], shared))
  }

  /** Whether paths are shared only depends on the local node's shape. */
  lemma {:induction false} SharedAtShape(a: Node, a': Node, b: Node, shared: set<Path>)
    requires SameShape(a, a') && SharedAt(a, b, shared)
    ensures SharedAt(a', b, shared)
    decreases b
  {
    forall k | k in b.children && k in a.children {
      SharedAtShape(a.children[k], a'.children[k], b.children[k], shared);
    }
  }

  /** Whether paths are shared only depends on the foreign node's shape. */
  lemma {:induction false} SharedAtForeignShape(a: Node, b: Node, b': Node, shared: set<Path>)
    requires SameShape(b, b') && SharedAt(a, b, shared)
    ensures SharedAt(a, b', shared)
    decreases b
  {
    forall k | k in b.children && k in a.children {
      SharedAtForeignShape(a.children[k], b.children[k], b'.children[k], shared);
    }
  }

  /** A local and a foreign node at the same path of two well-formed trees: a child of the
      foreign node lies at a path of both trees exactly when the local node has a child under
      the same key. */
  lemma SharedChild(ra: Tree, rb: Tree, a: Node, b: Node, k: string)
    requires a in Sub(ra) && b in Sub(rb) && a.path == b.path && k in b.children
    ensures b.children[k].path in PathsOf(ra) * PathsOf(rb) <==> k in a.children
  {
    SubWellFormed(rb, b);
    ChildInSub(b, k);
    SubTransitive(rb, b, b.children[k]);
    PathsOfSub(ra);
    PathsOfSub(rb);
    if k in a.children {
      SubWellFormed(ra, a);
      ChildInSub(a, k);
      SubTransitive(ra, a, a.children[k]);
    }
    if b.children[k].path in PathsOf(ra) {
      var x :| x in Sub(ra) && x.path == b.children[k].path;
      SubWellFormed(ra, a);
      ChildPathBelow(a.path, k);
      DescendantByPath(ra, a, x);
      ChildOwnsPath(a, k, x);
    }
  }

  /** Every pair of nodes at the same path of two well-formed trees meets the sharing rule for
      the paths of both trees. */
  lemma {:induction false} SharedAtNodes(ra: Tree, rb: Tree, a: Node, b: Node)
    requires a in Sub(ra) && b in Sub(rb) && a.path == b.path
    ensures SharedAt(a, b, PathsOf(ra) * PathsOf(rb))
    decreases b
  {
    forall k | k in b.children
      ensures b.children[k].path in PathsOf(ra) * PathsOf(rb) <==> k in a.children
      ensures k in a.children ==> SharedAt(a.children[k], b.children[k], PathsOf(ra) * PathsOf(rb))
    {
      SharedChild(ra, rb, a, b, k);
      if k in a.children {
        SubWellFormed(ra, a);
        SubWellFormed(rb, b);
        ChildInSub(a, k);
        ChildInSub(b, k);
        SubTransitive(ra, a, a.children[k]);
        SubTransitive(rb, b, b.children[k]);
        SharedAtNodes(ra, rb, a.children[k], b.children[k]);
      }
    }
  }

  /** The shared set of `merge`, all paths of both trees, meets the sharing rule at the roots. */
  lemma SharedAtRoots(ra: Tree, rb: Tree)
    requires ra.path == rb.path
    ensures SharedAt(ra, rb, PathsOf(ra) * PathsOf(rb))
  {
    assert ra in Sub(ra) && rb in Sub(rb);
    SharedAtNodes(ra, rb, ra, rb);
  }

  /** The own-mask step and the relinking below it keep the node's shape. */
  lemma AddPermissionsShape(a: Node, m: Mask)
    ensures SameShape(a, AddPermissions(a, m))
  {
    var a1 := AddPermissions(a, m);
    AddPermissionsConsistent(a, m);
    forall k | k in a.children
      ensures SameShape(a.children[k], a1.children[k])
    {
      SameRulesShape(a.children[k], a1.children[k]);
    }
  }

  /** The merged tree holds exactly the paths of both trees. */
  lemma {:induction false} MergePaths(a: Node, b: Node, shared: set<Path>, g: Path -> Mask)
    requires SharedAt(a, b, shared)
    ensures PathsOf(MergeNode(a, b, shared, g)) == PathsOf(a) + PathsOf(b)
    decreases b, 1
  {
    var r := MergeNode(a, b, shared, g);
    forall k | k in r.children
      ensures k in a.children ==> PathsOf(a.children[k]) <= PathsOf(r.children[k])
      ensures k in b.children ==> PathsOf(b.children[k]) <= PathsOf(r.children[k])
      ensures PathsOf(r.children[k]) <= PathsOf(a) + PathsOf(b)
    {
      MergeChildPaths(a, b, shared, g, k);
    }
    PathsWithin(r, PathsOf(a) + PathsOf(b));
    PathsKept(a, r);
    PathsKept(b, r);
  }

  /** Key by key: a merged child holds the paths of the local and the foreign child under its
      key, and no others. */
  lemma {:induction false} MergeChildPaths(a: Node, b: Node, shared: set<Path>, g: Path -> Mask, k: string)
    requires SharedAt(a, b, shared) && k in a.children.Keys + b.children.Keys
    ensures var r := MergeNode(a, b, shared, g);
      && (k in a.children ==> PathsOf(a.children[k]) <= PathsOf(r.children[k]))
      && (k in b.children ==> PathsOf(b.children[k]) <= PathsOf(r.children[k]))
      && PathsOf(r.children[k]) <= PathsOf(a) + PathsOf(b)
    decreases b, 0
  {
    var a1 := AddPermissions(a, g(b.path));
    var r := MergeNode(a, b, shared, g);
    AddPermissionsShape(a, g(b.path));
    if k in a.children {
      SameShapePaths(a.children[k], a1.children[k]);
      ChildPathsWithin(a, k);
    }
    if k in b.children {
      ChildPathsWithin(b, k);
    }
    if k in b.children && k in a.children {
      SharedAtShape(a, a1, b, shared);
      MergePaths(a1.children[k], b.children[k], shared, g);
    } else if k in b.children {
      SetInheritedRules(b.children[k], Eff(a1));
      SameRulesShape(b.children[k], r.children[k]);
      SameShapePaths(b.children[k], r.children[k]);
    }
  }

  /** The paths of a child's subtree are paths of the parent's. */
  lemma ChildPathsWithin(n: Node, k: string)
    requires k in n.children
    ensures PathsOf(n.children[k]) <= PathsOf(n)
  {
  }

  /** A subtree whose root path and child subtrees lie in `s` lies in `s`. */
  lemma PathsWithin(n: Node, s: set<Path>)
    requires n.path in s && forall k | k in n.children :: PathsOf(n.children[k]) <= s
    ensures PathsOf(n) <= s
  {
  }

  /** Paths of `n` stay in `r` when each child subtree of `n` is kept within `r`'s. */
  lemma PathsKept(n: Node, r: Node)
    requires r.path == n.path && n.children.Keys <= r.children.Keys
    requires forall k | k in n.children :: PathsOf(n.children[k]) <= PathsOf(r.children[k])
    ensures PathsOf(n) <= PathsOf(r)
  {
    forall p | p in PathsOf(n) && p != n.path
      ensures p in PathsOf(r)
    {
      var k :| k in n.children && p in PathsOf(n.children[k]);
      ChildPathsWithin(r, k);
    }
  }

  lemma {:induction false} SameRulesExtends(a: Node, b: Node)
    requires SameRules(a, b)
    ensures Extends(a, b)
    decreases a
  {
    forall k | k in a.children {
      SameRulesExtends(a.children[k], b.children[k]);
    }
  }

  lemma {:induction false} ExtendsTransitive(a: Node, b: Node, c: Node)
    requires Extends(a, b) && Extends(b, c)
    ensures Extends(a, c)
    decreases a
  {
    WithinTransitive(a.permissions, b.permissions, c.permissions);
    forall k | k in a.children {
      ExtendsTransitive(a.children[k], b.children[k], c.children[k]);
    }
  }

  /** Merging keeps every local node at its key and path, and its own mask only grows. */
  lemma {:induction false} MergeExtends(a: Node, b: Node, shared: set<Path>, g: Path -> Mask)
    requires SharedAt(a, b, shared)
    ensures Extends(a, MergeNode(a, b, shared, g))
    decreases b
  {
    var a1 := AddPermissions(a, g(b.path));
    var r := MergeNode(a, b, shared, g);
    OrBounds(a.permissions, g(b.path));
    AddPermissionsConsistent(a, g(b.path));
    forall k | k in a.children
      ensures Extends(a.children[k], r.children[k])
    {
      SameRulesExtends(a.children[k], a1.children[k]);
      if k in b.children {
        AddPermissionsShape(a, g(b.path));
        SharedAtShape(a, a1, b, shared);
        MergeExtends(a1.children[k], b.children[k], shared, g);
        ExtendsTransitive(a.children[k], a1.children[k], r.children[k]);
      }
    }
  }

  /** Merging two consistent trees leaves a consistent tree: every grafted subtree and every
      merged child inherits its new parent's effective mask. */
  lemma {:induction false} MergeConsistent(a: Node, b: Node, shared: set<Path>, g: Path -> Mask)
    requires SharedAt(a, b, shared) && Consistent(a) && Consistent(b)
    ensures Consistent(MergeNode(a, b, shared, g))
    decreases b
  {
    var a1 := AddPermissions(a, g(b.path));
    var r := MergeNode(a, b, shared, g);
    AddPermissionsConsistent(a, g(b.path));
    assert Eff(r) == Eff(a1);
    forall k | k in r.children
      ensures r.children[k].inherited == Eff(r) && Consistent(r.children[k])
    {
      if k in b.children && k in a.children {
        AddPermissionsShape(a, g(b.path));
        SharedAtShape(a, a1, b, shared);
        MergeConsistent(a1.children[k], b.children[k], shared, g);
      } else if k in b.children {
        SetInheritedConsistent(b.children[k], Eff(a1));
      }
    }
  }

  /** Merging two well-formed trees at the same path leaves a well-formed tree. */
  lemma {:induction false} MergeWellFormed(a: Node, b: Node, shared: set<Path>, g: Path -> Mask)
    requires WellFormed(a) && WellFormed(b) && a.path == b.path
    ensures WellFormed(MergeNode(a, b, shared, g))
    decreases b, 1
  {
    var r := MergeNode(a, b, shared, g);
    forall k | k in r.children
      ensures ValidKey(k) && WellFormed(r.children[k])
      ensures r.children[k].key == Some(k) && r.children[k].path == Some(ChildPath(r.path, k))
    {
      MergeChildWellFormed(a, b, shared, g, k);
    }
  }

  /** Key by key: each merged child is a well-formed subtree under its own key. */
  lemma {:induction false} MergeChildWellFormed(a: Node, b: Node, shared: set<Path>, g: Path -> Mask, k: string)
    requires WellFormed(a) && WellFormed(b) && a.path == b.path
    requires k in a.children.Keys + b.children.Keys
    ensures var r := MergeNode(a, b, shared, g);
      && ValidKey(k) && WellFormed(r.children[k])
      && r.children[k].key == Some(k) && r.children[k].path == Some(ChildPath(a.path, k))
    decreases b, 0
  {
    var a1 := AddPermissions(a, g(b.path));
    var r := MergeNode(a, b, shared, g);
    AddPermissionsShape(a, g(b.path));
    SameShapeWellFormed(a, a1);
    if k in b.children && b.children[k].path in shared && k in a1.children {
      MergeWellFormed(a1.children[k], b.children[k], shared, g);
    } else if k in b.children {
      SetInheritedRules(b.children[k], Eff(a1));
      SameRulesShape(b.children[k], r.children[k]);
      SameShapeWellFormed(b.children[k], r.children[k]);
    }
  }

  /** Every own mask of `r` lies within the union of the own mask `a` holds at the same place
      and the foreign mask `g` of its path; where `a` has no node, within the foreign mask
      alone. */
  predicate GrantedBy(r: Node, a: Node, g: Path -> Mask)
    decreases r
  {
    && Within(r.permissions, Or(a.permissions, g(r.path)))
    && forall k | k in r.children ::
         if k in a.children then GrantedBy(r.children[k], a.children[k], g)
         else OwnBounded(r.children[k], g)
  }

  /** The bound only reads the own masks of `a`. */
  lemma {:induction false} GrantedBySameRules(r: Node, a: Node, a': Node, g: Path -> Mask)
    requires SameRules(a, a') && GrantedBy(r, a', g)
    ensures GrantedBy(r, a, g)
    decreases r
  {
    forall k | k in r.children && k in a.children {
      GrantedBySameRules(r.children[k], a.children[k], a'.children[k], g);
    }
  }

  /** A node whose own masks are unchanged is granted by its old self. */
  lemma {:induction false} SameRulesGranted(a: Node, a': Node, g: Path -> Mask)
    requires SameRules(a, a')
    ensures GrantedBy(a', a, g)
    decreases a'
  {
    OrBounds(a.permissions, g(a'.path));
    forall k | k in a'.children {
      SameRulesGranted(a.children[k], a'.children[k], g);
    }
  }

  /** Merging a foreign tree whose own masks respect `g` only adds flags that `g` grants: no
      local own mask gains a flag the foreign mask of its path lacks, and every grafted own
      mask lies within it. */
  lemma {:induction false} MergeGranted(a: Node, b: Node, shared: set<Path>, g: Path -> Mask)
    requires SharedAt(a, b, shared) && OwnBounded(b, g)
    ensures GrantedBy(MergeNode(a, b, shared, g), a, g)
    decreases b
  {
    var a1 := AddPermissions(a, g(b.path));
    var r := MergeNode(a, b, shared, g);
    AddPermissionsConsistent(a, g(b.path));
    forall k | k in r.children
      ensures if k in a.children then GrantedBy(r.children[k], a.children[k], g)
              else OwnBounded(r.children[k], g)
    {
      MergeChildGranted(a, b, shared, g, k);
    }
  }

  /** Key by key: the bound holds for every child of the merged node. */
  lemma {:induction false} MergeChildGranted(a: Node, b: Node, shared: set<Path>, g: Path -> Mask, k: string)
    requires SharedAt(a, b, shared) && OwnBounded(b, g) && k in a.children.Keys + b.children.Keys
    ensures var r := MergeNode(a, b, shared, g);
      if k in a.children then GrantedBy(r.children[k], a.children[k], g)
      else OwnBounded(r.children[k], g)
    decreases b, 0
  {
    var a1 := AddPermissions(a, g(b.path));
    var r := MergeNode(a, b, shared, g);
    AddPermissionsConsistent(a, g(b.path));
    if k in a.children && k in b.children {
      AddPermissionsShape(a, g(b.path));
      SharedAtShape(a, a1, b, shared);
      MergeGranted(a1.children[k], b.children[k], shared, g);
      GrantedBySameRules(r.children[k], a.children[k], a1.children[k], g);
    } else if k in a.children {
      SameRulesGranted(a.children[k], a1.children[k], g);
    } else {
      SetInheritedRules(b.children[k], Eff(a1));
      SameRulesOwnBounded(b.children[k], r.children[k], g);
    }
  }

  /** merge(tree) on rule roots, as written: the foreign root is copied, the copy is checked
      against the foreign tree's masks `g` with checkPermissions(tree) as written, and the
      result is merged into the local root. */
  function MergeRoots(a: Node, b: Node, shared: set<Path>, g: Path -> Mask): (r: Node)
    ensures r.key == a.key && r.path == a.path && r.inherited == a.inherited
    ensures r.permissions == Or(a.permissions, g(b.path))
  {
    MergeNode(a, CheckAgainstAsWritten(Copy(b), g), shared, g)
  }

  /** Merging two well-formed trees rooted at the same path, with the paths of both as the
      shared set: the result is well formed, holds exactly the paths of both trees, keeps
      every local node with an own mask that only grew, and adds only flags the foreign masks
      grant. It is consistent when the local tree and the checked copy are, but the check as
      written does not make the copy consistent (`MergeAsWrittenEscalates`). */
  lemma MergeRootsSpec(a: Tree, b: Tree, g: Path -> Mask)
    requires a.path == b.path
    ensures var r := MergeRoots(a, b, PathsOf(a) * PathsOf(b), g);
      && WellFormed(r) && PathsOf(r) == PathsOf(a) + PathsOf(b)
      && Extends(a, r) && GrantedBy(r, a, g)
      && (Consistent(a) && Consistent(CheckAgainstAsWritten(b, g)) ==> Consistent(r))
  {
    var shared := PathsOf(a) * PathsOf(b);
    CopyIsEqual(b);
    var c := CheckAgainstAsWritten(b, g);
    CheckAgainstAsWrittenBounded(b, g);
    SharedAtRoots(a, b);
    SharedAtForeignShape(a, b, c, shared);
    SameShapeWellFormed(b, c);
    SameShapePaths(b, c);
    MergeMembers(a, c, shared, g);
  }

  /** merge(tree) as evidently intended: the copy is checked with the corrected check, which
      re-propagates the inherited masks through the whole copy. */
  function MergeRootsIntended(a: Node, b: Node, shared: set<Path>, g: Path -> Mask): (r: Node)
    ensures r.key == a.key && r.path == a.path && r.inherited == a.inherited
    ensures r.permissions == Or(a.permissions, g(b.path))
  {
    MergeNode(a, CheckAgainst(Copy(b), g), shared, g)
  }

  /** The intended merge has the properties of `MergeRootsSpec`, and it also keeps a
      consistent local tree consistent, whatever the foreign tree's inherited masks. */
  lemma MergeRootsIntendedSpec(a: Tree, b: Tree, g: Path -> Mask)
    requires a.path == b.path
    ensures var r := MergeRootsIntended(a, b, PathsOf(a) * PathsOf(b), g);
      && WellFormed(r) && PathsOf(r) == PathsOf(a) + PathsOf(b)
      && Extends(a, r) && GrantedBy(r, a, g)
      && (Consistent(a) ==> Consistent(r))
  {
    var shared := PathsOf(a) * PathsOf(b);
    CopyIsEqual(b);
    var c := CheckAgainst(b, g);
    CheckedShared(a, b, g);
    CheckAgainstBounded(b, g);
    SameShapeWellFormed(b, c);
    SameShapePaths(b, c);
    MergeMembers(a, c, shared, g);
  }

  /** The merge lemmas for a well-formed foreign node meeting the sharing rule, whose own
      masks respect `g`. */
  lemma MergeMembers(a: Tree, c: Node, shared: set<Path>, g: Path -> Mask)
    requires WellFormed(c) && a.path == c.path && SharedAt(a, c, shared) && OwnBounded(c, g)
    ensures var r := MergeNode(a, c, shared, g);
      && WellFormed(r) && PathsOf(r) == PathsOf(a) + PathsOf(c)
      && Extends(a, r) && GrantedBy(r, a, g)
      && (Consistent(a) && Consistent(c) ==> Consistent(r))
  {
    MergeWellFormed(a, c, shared, g);
    MergePaths(a, c, shared, g);
    MergeExtends(a, c, shared, g);
    MergeGranted(a, c, shared, g);
    if Consistent(a) && Consistent(c) {
      MergeConsistent(a, c, shared, g);
    }
  }

  /** The checked foreign root meets the sharing rule with the local root. */
  lemma CheckedShared(a: Tree, b: Tree, g: Path -> Mask)
    requires a.path == b.path
    ensures SharedAt(a, CheckAgainst(b, g), PathsOf(a) * PathsOf(b))
  {
    SharedAtRoots(a, b);
    CheckAgainstBounded(b, g);
    SharedAtForeignShape(a, b, CheckAgainst(b, g), PathsOf(a) * PathsOf(b));
  }

  /** The foreign masks of the example below: its parent grants nothing, so neither does it. */
  function NoFlags(p: Path): Mask {
    NONE
  }

  /** A lone local root. */
  const LONE_ROOT: Node := Node(None, None, NONE, NONE, map[])
  /** A foreign grandchild `c/d` that inherited flag 1 from `c`. */
  const FOREIGN_D: Node := Node(Some("d"), Some("c/d"), Mask(1), NONE, map[])
  /** A foreign child `c` with own flag 1. */
  const FOREIGN_C: Node := Node(Some("c"), Some("c"), NONE, Mask(1), map["d" := FOREIGN_D])
  /** A foreign root with no flags. */
  const FOREIGN_ROOT: Node := Node(None, None, NONE, NONE, map["c" := FOREIGN_C])

  /** The example trees are well formed and consistent, and share only the root path. */
  lemma ExampleTrees()
    ensures WellFormed(LONE_ROOT) && WellFormed(FOREIGN_ROOT)
    ensures Consistent(LONE_ROOT) && Consistent(FOREIGN_ROOT)
    ensures PathsOf(LONE_ROOT) * PathsOf(FOREIGN_ROOT) == {None}
  {
    assert ChildPath(Some("c"), "d") == "c/d";
    assert PathsOf(LONE_ROOT) == {None};
  }

  /** The check as written leaves `c/d` inheriting flag 1 in the checked copy. */
  lemma ExampleChecked()
    ensures var k := CheckAgainstAsWritten(Copy(FOREIGN_ROOT), NoFlags);
      && "c" in k.children && k.children["c"].inherited == NONE
      && "d" in k.children["c"].children && k.children["c"].children["d"].inherited == Mask(1)
      && Eff(k.children["c"]) == NONE && Eff(k.children["c"].children["d"]) == Mask(1)
  {
    CopyIsEqual(FOREIGN_ROOT);
    var clipped := ClipOwn(FOREIGN_ROOT, NoFlags);
    assert And(NONE, NONE) == NONE;
    assert CheckAgainstAsWritten(FOREIGN_ROOT, NoFlags) == clipped;
    assert clipped.children["c"] == ClipOwn(FOREIGN_C, NoFlags);
    assert ClipOwn(FOREIGN_C, NoFlags).children["d"] == ClipOwn(FOREIGN_D, NoFlags);
    assert And(Mask(1), NONE) == NONE && Or(NONE, NONE) == NONE && Or(NONE, Mask(1)) == Mask(1);
  }

  /** A child whose inherited mask differs from its parent's effective mask, or whose own
      subtree is inconsistent, makes its parent inconsistent; the same for a child that
      exceeds its bound. */
  lemma BadChild(n: Node, k: string, f: Path -> Mask)
    requires k in n.children
    ensures Consistent(n) ==> n.children[k].inherited == Eff(n) && Consistent(n.children[k])
    ensures EffBounded(n, f) ==> EffBounded(n.children[k], f)
  {
  }

  /** A foreign child whose path is not shared, or that the local node lacks, is grafted
      with the local node's new effective mask as its inherited mask. */
  lemma GraftedChild(a: Node, b: Node, shared: set<Path>, g: Path -> Mask, k: string)
    requires k in b.children && (b.children[k].path !in shared || k !in a.children)
    ensures k in MergeNode(a, b, shared, g).children
    ensures MergeNode(a, b, shared, g).children[k] == SetInherited(b.children[k], Eff(AddPermissions(a, g(b.path))))
  {
  }

  /** In the example, `c` is grafted as the check left it. */
  lemma ExampleMerged()
    ensures var r := MergeRoots(LONE_ROOT, FOREIGN_ROOT, {None}, NoFlags);
      && "c" in r.children
      && r.children["c"] == CheckAgainstAsWritten(Copy(FOREIGN_ROOT), NoFlags).children["c"]
  {
    ExampleChecked();
    var k := CheckAgainstAsWritten(Copy(FOREIGN_ROOT), NoFlags);
    assert k.children["c"].path == Some("c");
    assert AddPermissions(LONE_ROOT, NONE) == LONE_ROOT;
    GraftedChild(LONE_ROOT, k, {None}, NoFlags, "c");
  }

  /** The merge as written grants what the foreign tree never granted. The foreign tree is
      a root with no flags, a child `c` with own flag 1 and a grandchild `c/d` inheriting it;
      it is consistent, and its masks are 0 everywhere (its parent grants nothing). Merged
      into a lone root, the check clears `c`'s own flag, but neither the root's nor `c`'s
      guarded setInherited runs on, so `c/d` keeps inherited flag 1: the result is not
      consistent and grants flag 1 at `c/d`. The intended merge stays consistent. */
  lemma MergeAsWrittenEscalates()
    ensures WellFormed(LONE_ROOT) && WellFormed(FOREIGN_ROOT)
    ensures Consistent(LONE_ROOT) && Consistent(FOREIGN_ROOT)
    ensures var r := MergeRoots(LONE_ROOT, FOREIGN_ROOT, {None}, NoFlags);
      && "c" in r.children && "d" in r.children["c"].children
      && Eff(r.children["c"].children["d"]) == Mask(1)
      && !Consistent(r) && !EffBounded(r, NoFlags)
    ensures Consistent(MergeRootsIntended(LONE_ROOT, FOREIGN_ROOT, {None}, NoFlags))
  {
    ExampleTrees();
    ExampleChecked();
    ExampleMerged();
    var r := MergeRoots(LONE_ROOT, FOREIGN_ROOT, {None}, NoFlags);
    var c := r.children["c"];
    var d := c.children["d"];
    BadChild(r, "c", NoFlags);
    BadChild(c, "d", NoFlags);
    assert d.inherited != Eff(c);
    assert !Within(Eff(d), NoFlags(d.path));
    MergeRootsIntendedSpec(LONE_ROOT, FOREIGN_ROOT, NoFlags);
  }
}
