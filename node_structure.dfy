/** How paths sit in a well-formed rule tree: every node lies at or below its ancestors'
    paths, siblings own disjoint parts of the path space, and so each path names at most one
    node. These facts let a tree be indexed by path (`PermissionTree.rules`). */
module NodeStructure {
  import opened Wrappers
  import opened Paths
  import opened Masks
  import opened PermissionNodes

  /** A well-formed rule tree. */
  type Tree = n: Node | WellFormed(n) witness Node(None, None, NONE, NONE, map[])

  /** `rules` maps every path of the tree to the node at that path, and holds nothing else. */
  predicate Indexes(rules: map<Path, Node>, root: Node) {
    && rules.Keys == PathsOf(root)
    && forall x | x in Sub(root) :: x.path in rules && rules[x.path] == x
  }

  lemma {:induction false} SubWellFormed(n: Node, x: Node)
    requires WellFormed(n) && x in Sub(n)
    ensures WellFormed(x)
    decreases n
  {
    if x != n {
      var k :| k in n.children && x in Sub(n.children[k]);
      SubWellFormed(n.children[k], x);
    }
  }

  lemma {:induction false} SubConsistent(n: Node, x: Node)
    requires Consistent(n) && x in Sub(n)
    ensures Consistent(x)
    decreases n
  {
    if x != n {
      var k :| k in n.children && x in Sub(n.children[k]);
      SubConsistent(n.children[k], x);
    }
  }

  /** A child is a node of its parent's subtree. */
  lemma ChildInSub(n: Node, k: string)
    requires k in n.children
    ensures n.children[k] in Sub(n)
  {
    assert n.children[k] in Sub(n.children[k]);
  }

  /** A node of a subtree of a subtree is a node of the whole. */
  lemma {:induction false} SubTransitive(a: Node, b: Node, c: Node)
    requires b in Sub(a) && c in Sub(b)
    ensures c in Sub(a)
    decreases a
  {
    if b != a {
      var k :| k in a.children && b in Sub(a.children[k]);
      SubTransitive(a.children[k], b, c);
    }
  }

  /** Every node of a subtree lies at or below the subtree's root, strictly so unless it is
      the root. */
  lemma {:induction false} SubBelow(n: Node, x: Node)
    requires WellFormed(n) && x in Sub(n)
    ensures AtOrAbove(n.path, x.path)
    ensures x != n ==> x.path != n.path
    decreases n
  {
    if x != n {
      var k :| k in n.children && x in Sub(n.children[k]);
      var c := n.children[k];
      SubBelow(c, x);
      ChildPathBelow(n.path, k);
      AtOrAboveTransitive(n.path, c.path, x.path);
      if x.path == n.path {
        AtOrAboveAntisymmetric(n.path, c.path);
      }
    }
  }

  /** The subtrees of two different children share no node. */
  lemma SiblingSubtreesDisjoint(n: Node, k1: string, k2: string, x: Node)
    requires WellFormed(n) && k1 in n.children && k2 in n.children && k1 != k2
    requires x in Sub(n.children[k1])
    ensures x !in Sub(n.children[k2])
  {
    SubBelow(n.children[k1], x);
    if x in Sub(n.children[k2]) {
      SubBelow(n.children[k2], x);
      SiblingPathsDisjoint(n.path, k1, k2, x.path);
    }
  }

  /** A node of the tree whose path lies at or below child `k`'s path is in child `k`'s
      subtree (and child `k` exists). */
  lemma ChildOwnsPath(n: Node, k: string, x: Node)
    requires WellFormed(n) && ValidKey(k) && x in Sub(n)
    requires AtOrAbove(Some(ChildPath(n.path, k)), x.path)
    ensures k in n.children && x in Sub(n.children[k])
  {
    ChildPathBelow(n.path, k);
    if x == n {
      AtOrAboveAntisymmetric(n.path, Some(ChildPath(n.path, k)));
    } else {
      var j :| j in n.children && x in Sub(n.children[j]);
      SubBelow(n.children[j], x);
      if j != k {
        SiblingPathsDisjoint(n.path, k, j, x.path);
      }
    }
  }

  /** A node whose path lies at or below another node's path is in that node's subtree. */
  lemma {:induction false} DescendantByPath(n: Node, u: Node, v: Node)
    requires WellFormed(n) && u in Sub(n) && v in Sub(n) && AtOrAbove(u.path, v.path)
    ensures v in Sub(u)
    decreases n
  {
    if u != n {
      var k :| k in n.children && u in Sub(n.children[k]);
      var c := n.children[k];
      SubBelow(n, u);
      SubBelow(c, u);
      if v == n {
        AtOrAboveAntisymmetric(u.path, n.path);
      } else {
        AtOrAboveTransitive(c.path, u.path, v.path);
        ChildOwnsPath(n, k, v);
        DescendantByPath(c, u, v);
      }
    }
  }

  /** Paths are unique: two nodes of a well-formed tree at the same path are the same node. */
  lemma PathsUnique(n: Node, u: Node, v: Node)
    requires WellFormed(n) && u in Sub(n) && v in Sub(n) && u.path == v.path
    ensures u == v
  {
    DescendantByPath(n, u, v);
    SubWellFormed(n, u);
    SubBelow(u, v);
  }

  /** The paths of a subtree are exactly the paths of its nodes. */
  lemma {:induction false} PathsOfSub(n: Node)
    ensures PathsOf(n) == set x | x in Sub(n) :: x.path
    decreases n
  {
    forall k | k in n.children {
      PathsOfSub(n.children[k]);
    }
    var lhs := PathsOf(n);
    var rhs := set x | x in Sub(n) :: x.path;
    forall p | p in lhs
      ensures p in rhs
    {
      if p != n.path {
        var k :| k in n.children && p in PathsOf(n.children[k]);
        var x :| x in Sub(n.children[k]) && x.path == p;
        assert x in Sub(n);
      }
    }
    forall p | p in rhs
      ensures p in lhs
    {
      var x :| x in Sub(n) && x.path == p;
      if x != n {
        var k :| k in n.children && x in Sub(n.children[k]);
        assert p in PathsOf(n.children[k]);
      }
    }
  }

  /** Every indexed rule is a node of the tree at its own path. */
  lemma IndexedRules(rules: map<Path, Node>, root: Node)
    requires Indexes(rules, root)
    ensures forall p | p in rules :: rules[p] in Sub(root) && rules[p].path == p
  {
    PathsOfSub(root);
    forall p | p in rules
      ensures rules[p] in Sub(root) && rules[p].path == p
    {
      var x :| x in Sub(root) && x.path == p;
    }
  }

  /** In a consistent tree effective masks only grow from a node to its descendants. */
  lemma {:induction false} EffGrowsDown(n: Node, x: Node)
    requires Consistent(n) && x in Sub(n)
    ensures Within(Eff(n), Eff(x))
    decreases n
  {
    if x != n {
      var k :| k in n.children && x in Sub(n.children[k]);
      var c := n.children[k];
      EffGrowsDown(c, x);
      WithinTransitive(Eff(n), Eff(c), Eff(x));
    }
  }

  /** In a consistent well-formed tree a rule at or above a path never grants more than the
      rule at that path. */
  lemma EffMonotone(n: Node, u: Node, v: Node)
    requires WellFormed(n) && Consistent(n) && u in Sub(n) && v in Sub(n)
    requires AtOrAbove(u.path, v.path)
    ensures Within(Eff(u), Eff(v))
  {
    DescendantByPath(n, u, v);
    SubConsistent(n, u);
    EffGrowsDown(u, v);
  }
}
