/** `Blessing.PermissionTree`: the rule tree of one blessing, its index of rules by path, and
    the link to the tree of the blessing it was granted from. A path's permissions are those
    of its nearest rule, cut down to what the parent tree grants at that rule's path, so a
    tree never grants more than the trees above it. */
module PermissionTrees {
  import opened Wrappers
  import opened Paths
  import opened Masks
  import opened PermissionNodes
  import opened NodeStructure
  import opened NodeIteration
  import opened NodeMerge
  import Utils

  /** The rule root of a tree without rules (`new Permission()`). */
  const EMPTY_ROOT: Node := Node(None, None, NONE, NONE, map[])

  /** A mask table read as a mask function: `NONE` off the table. */
  function Lookup(t: map<Path, Mask>): Path -> Mask {
    p => if p in t then t[p] else NONE
  }

  class PermissionTree {
    var root: Tree
    /** path -> node, the root under the null path */
    var rules: map<Path, Node>
    /** The tree of the parent blessing; null for a root blessing. */
    const parentTree: PermissionTree?
    /** The length of the parent chain, and the trees on it. */
    ghost const depth: nat
    ghost const Ancestors: set<PermissionTree>

    /** The parent chain is finite and `Ancestors` holds exactly its trees. */
    ghost predicate Linked()
      decreases depth
    {
      if parentTree == null then Ancestors == {}
      else
        && parentTree.depth < depth
        && Ancestors == {parentTree} + parentTree.Ancestors
        && parentTree.Linked()
    }

    /** The rule tree is well formed and `rules` indexes it. */
    ghost predicate Valid()
      reads this
    {
      WellFormed(root) && Indexes(rules, root)
    }

    /** Every tree of the chain is valid, rooted at the null path and consistent, as the
        trees built from snapshots are. */
    ghost predicate ChainValid()
      requires Linked()
      reads this, Ancestors
      decreases depth
    {
      && Valid() && root.path == None && Consistent(root)
      && (parentTree != null ==> parentTree.ChainValid())
    }

    /** The value of getPermissions(path): the nearest rule at or above `path` (0 when there
        is none), intersected with the parent tree's value at that rule's path. The call
        fails only for a path starting with the delimiter. */
    function PermissionsAt(path: Path): (r: Result<Mask, PathError>)
      requires Linked()
      reads this, Ancestors
      ensures r.Err? ==> path.Some? && StartsWithDelimiter(path.value)
      decreases depth
    {
      NearestAncestorSpec(path, rules.Keys);
      match NearestAncestor(path, rules.Keys)
      case Err(e) => Err(e)
      case Ok(q) =>
        if q !in rules then Ok(NONE)
        else if parentTree == null then Ok(Eff(rules[q]))
        else
          assert q.Some? && q != path ==> q.value[0] == path.value[0];
          match parentTree.PermissionsAt(q)
          case Err(e) => Err(e)
          case Ok(m) => Ok(And(Eff(rules[q]), m))
    }

    /** getPermissions(path), walking the parent chain. */
    method GetPermissions(path: Path) returns (r: Result<Mask, PathError>)
      requires Linked()
      ensures r == PermissionsAt(path)
      decreases depth
    {
      var nearest := Utils.GetNearestCommonAncestor(path, rules.Keys);
      if nearest.Err? {
        return Err(nearest.error);
      }
      var q := nearest.value;
      if q !in rules {
        return Ok(NONE);
      }
      var result := Eff(rules[q]);
      if parentTree != null {
        var validated := parentTree.GetPermissions(q);
        if validated.Err? {
          return Err(validated.error);
        }
        result := And(result, validated.value);
      }
      return Ok(result);
    }

    /** The foreign masks `merge` reads: getPermissions at every rule path. */
    function MaskTable(): (t: map<Path, Mask>)
      requires Linked()
      reads this, Ancestors
      ensures t.Keys == rules.Keys
    {
      map p | p in rules :: PermissionsAt(p).GetOr(NONE)
    }

    /** `new PermissionTree()`: a single root rule with no flags. */
    constructor Empty(parent: PermissionTree?)
      requires parent != null ==> parent.Linked()
      ensures Linked() && Valid() && parentTree == parent
      ensures root == EMPTY_ROOT && rules == map[None := EMPTY_ROOT]
    {
      parentTree := parent;
      depth := if parent == null then 0 else parent.depth + 1;
      Ancestors := if parent == null then {} else {parent} + parent.Ancestors;
      root := EMPTY_ROOT;
      rules := map[];
      new;
      UpdateRules();
      assert root in Sub(root);
    }

    /** `new PermissionTree(snapshot)`: the rules hydrated from a snapshot. */
    constructor FromSnapshot(snapshot: Snapshot, parent: PermissionTree?)
      requires StoreKeys(snapshot)
      requires parent != null ==> parent.Linked()
      ensures Linked() && Valid() && parentTree == parent
      ensures root == Hydrate(snapshot, "", None, NONE)
      ensures root.path == None && Consistent(root)
    {
      parentTree := parent;
      depth := if parent == null then 0 else parent.depth + 1;
      Ancestors := if parent == null then {} else {parent} + parent.Ancestors;
      HydrateWellFormed(snapshot, "", None, NONE);
      HydrateConsistent(snapshot, "", None, NONE);
      root := Hydrate(snapshot, "", None, NONE);
      rules := map[];
      new;
      UpdateRules();
    }

    /** setRoot: replace the rules and re-index them. */
    method SetRoot(n: Node)
      requires WellFormed(n)
      modifies this
      ensures root == n && Indexes(rules, n)
    {
      root := n;
      UpdateRules();
    }

    /** updateRules: clear the index and refill it from a walk over the tree. */
    method UpdateRules()
      requires WellFormed(root)
      modifies this
      ensures root == old(root) && Indexes(rules, root)
    {
      var visited := Iterate(root);
      var index: map<Path, Node> := map[];
      for i := 0 to |visited|
        invariant index.Keys == set j | 0 <= j < i :: visited[j].path
        invariant forall j | 0 <= j < i :: index[visited[j].path] == visited[j]
      {
        index := index[visited[i].path := visited[i]];
      }
      rules := index;
      VisitIndexes(root, visited, index);
    }

    /** get(path) */
    function Get(path: Path): (r: Option<Node>)
      reads this
      ensures r.Some? <==> path in rules
      ensures r.Some? ==> r.value == rules[path]
    {
      if path in rules then Some(rules[path]) else None
    }

    /** merge(tree): the foreign rules, copied and checked against the foreign tree's own
        masks with checkPermissions(tree) as written, are merged into this tree, which is then
        re-indexed. Consistency survives only when the checked copy is consistent: the check
        as written can leave stale inherited masks in grafted subtrees
        (`MergeAsWrittenEscalates`). */
    method Merge(tree: PermissionTree)
      requires Valid() && tree.Linked() && tree.Valid() && root.path == tree.root.path
      requires tree != this && this !in tree.Ancestors
      modifies this
      ensures root == MergeRoots(old(root), old(tree.root), old(rules.Keys) * old(tree.rules.Keys),
                                 Lookup(old(tree.MaskTable())))
      ensures Valid()
      ensures rules.Keys == old(rules.Keys) + old(tree.rules.Keys)
      ensures Extends(old(root), root)
      ensures GrantedBy(root, old(root), Lookup(old(tree.MaskTable())))
      ensures (Consistent(old(root)) && Consistent(CheckAgainstAsWritten(old(tree.root), Lookup(old(tree.MaskTable())))))
        ==> Consistent(root)
      ensures tree.root == old(tree.root) && tree.rules == old(tree.rules)
    {
      var g := Lookup(tree.MaskTable());
      var foreign := Copy(tree.root);
      var checked := CheckAgainstAsWritten(foreign, g);
      var shared := rules.Keys * tree.rules.Keys;
      ghost var local: Tree := root;
      ghost var other: Tree := tree.root;
      MergeRootsSpec(local, other, g);
      root := MergeNode(root, checked, shared, g);
      UpdateRules();
    }

    /** The rule paths of a valid tree are all relative. */
    lemma RulePathsRelative()
      requires Valid()
      ensures forall p | p in rules :: Relative(p)
    {
      IndexedRules(rules, root);
      forall p | p in rules
        ensures Relative(p)
      {
        SubWellFormed(root, rules[p]);
      }
    }

    /** get(path) finds a node exactly at the paths of the tree, and it is the node of the
        tree at that path. */
    lemma GetFindsNode(path: Path)
      requires Valid()
      ensures Get(path).Some? <==> path in PathsOf(root)
      ensures Get(path).Some? ==> Get(path).value in Sub(root) && Get(path).value.path == path
    {
      IndexedRules(rules, root);
    }

    /** On a valid tree getPermissions fails exactly for a path that starts with the
        delimiter. */
    lemma PermissionsDefined(path: Path)
      requires Linked() && Valid()
      ensures PermissionsAt(path).Err? <==> path.Some? && StartsWithDelimiter(path.value)
    {
      RulePathsRelative();
    }

    /** The masks `merge` reads are exactly getPermissions at every rule path. */
    lemma MaskTableExact()
      requires Linked() && Valid()
      ensures forall p | p in rules :: PermissionsAt(p) == Ok(MaskTable()[p])
    {
      RulePathsRelative();
    }

    /** A relative path resolves to a rule at or above it in a valid tree rooted at null. */
    lemma ResolvesToRule(path: Path)
      requires Valid() && root.path == None && Relative(path)
      ensures NearestAncestor(path, rules.Keys).Ok?
      ensures NearestAncestor(path, rules.Keys).value in rules
      ensures AtOrAbove(NearestAncestor(path, rules.Keys).value, path)
    {
      NearestAncestorSpec(path, rules.Keys);
    }

    /** When no rule lies at or above a path, getPermissions falls back to the root rule
        (indexed under the null path) rather than returning 0. */
    lemma FallsBackToRoot(path: Path)
      requires Linked() && Valid() && root.path == None && parentTree == null
      requires path.Some? && Relative(path) && path !in rules
      requires forall a | Some(a) in rules :: !AncestorOf(a, path.value)
      ensures PermissionsAt(path) == Ok(Eff(root))
    {
      NearestAncestorSpec(path, rules.Keys);
      assert root in Sub(root);
    }

    /** Along a consistent chain, getPermissions never shrinks from a path to a path below
        it. */
    lemma PermissionsMonotone(p: Path, q: Path)
      requires Linked() && ChainValid() && Relative(p) && AtOrAbove(q, p)
      ensures PermissionsAt(q).Ok? && PermissionsAt(p).Ok?
      ensures Within(PermissionsAt(q).value, PermissionsAt(p).value)
      decreases depth
    {
      AboveRelativeIsRelative(q, p);
      ResolvesToRule(p);
      ResolvesToRule(q);
      NearestAncestorMonotone(p, q, rules.Keys);
      var np := NearestAncestor(p, rules.Keys).value;
      var nq := NearestAncestor(q, rules.Keys).value;
      IndexedRules(rules, root);
      EffMonotone(root, rules[nq], rules[np]);
      if parentTree != null {
        RulePathsRelative();
        parentTree.PermissionsMonotone(np, nq);
        AndMonotone(Eff(rules[nq]), parentTree.PermissionsAt(nq).value,
                    Eff(rules[np]), parentTree.PermissionsAt(np).value);
      }
    }

    /** No escalation: a tree never grants at a path more than its parent tree grants at the
        same path. */
    lemma BoundedByParent(path: Path)
      requires Linked() && ChainValid() && parentTree != null && Relative(path)
      ensures PermissionsAt(path).Ok? && parentTree.PermissionsAt(path).Ok?
      ensures Within(PermissionsAt(path).value, parentTree.PermissionsAt(path).value)
    {
      ResolvesToRule(path);
      var q := NearestAncestor(path, rules.Keys).value;
      parentTree.PermissionsMonotone(path, q);
      AndBounds(Eff(rules[q]), parentTree.PermissionsAt(q).value);
      WithinTransitive(PermissionsAt(path).value, parentTree.PermissionsAt(q).value,
                       parentTree.PermissionsAt(path).value);
    }

    /** No escalation along the whole chain: a tree never grants more than any tree above
        it. */
    lemma BoundedByAncestors(a: PermissionTree, path: Path)
      requires Linked() && ChainValid() && a in Ancestors && Relative(path)
      ensures a.Linked() && PermissionsAt(path).Ok? && a.PermissionsAt(path).Ok?
      ensures Within(PermissionsAt(path).value, a.PermissionsAt(path).value)
      decreases depth
    {
      BoundedByParent(path);
      if a != parentTree {
        parentTree.BoundedByAncestors(a, path);
        WithinTransitive(PermissionsAt(path).value, parentTree.PermissionsAt(path).value,
                         a.PermissionsAt(path).value);
      }
    }
  }

  /** A walk that visits every node of a well-formed tree, each at its own path, indexes it. */
  lemma VisitIndexes(root: Node, visited: seq<Node>, index: map<Path, Node>)
    requires WellFormed(root)
    requires forall x :: x in visited <==> x in Sub(root)
    requires index.Keys == set j | 0 <= j < |visited| :: visited[j].path
    requires forall j | 0 <= j < |visited| :: index[visited[j].path] == visited[j]
    ensures Indexes(index, root)
  {
    PathsOfSub(root);
    forall x | x in Sub(root)
      ensures x.path in index && index[x.path] == x
    {
      var j :| 0 <= j < |visited| && visited[j] == x;
    }
    forall p | p in index
      ensures p in PathsOf(root)
    {
      var j :| 0 <= j < |visited| && visited[j].path == p;
      assert visited[j] in Sub(root);
    }
  }
}
