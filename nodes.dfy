/** The rule nodes of a blessing (`Blessing.Permission`): each node carries its own mask and
    the mask it inherits from its parent, and its mutators push a changed effective mask down
    to the whole subtree. Nodes are values here; a mutator returns the rewritten subtree. */
module PermissionNodes {
  import opened Wrappers
  import opened Paths
  import opened Masks

  /** A store snapshot of a rule node: the value of its `_permissions` child, if any, and all
      of its children by key (reserved keys included). */
  datatype Snapshot = Snapshot(permissions: Option<Mask>, children: map<string, Snapshot>)

  /** A rule node: `key` and `path` are null for the root, `permissions` is the own mask. */
  datatype Node = Node(key: Option<string>, path: Path, inherited: Mask, permissions: Mask,
                       children: map<string, Node>)

  /** getPermissions(): the effective mask, the least mask holding both the own and the
      inherited bits. */
  function Eff(n: Node): (m: Mask)
    ensures Within(n.permissions, m) && Within(n.inherited, m)
  {
    Or(n.permissions, n.inherited)
  }

  /** The store only holds valid keys, at every level of a snapshot. */
  predicate StoreKeys(s: Snapshot) {
    forall k | k in s.children :: ValidKey(k) && StoreKeys(s.children[k])
  }

  /** Every child sits under its own key, at the path of that key below its parent. */
  predicate WellFormed(n: Node) {
    && Relative(n.path)
    && forall k | k in n.children ::
         && ValidKey(k)
         && n.children[k].key == Some(k)
         && n.children[k].path == Some(ChildPath(n.path, k))
         && WellFormed(n.children[k])
  }

  /** Every child inherits exactly its parent's effective mask, throughout the subtree. */
  predicate Consistent(n: Node) {
    forall k | k in n.children :: n.children[k].inherited == Eff(n) && Consistent(n.children[k])
  }

  /** No child key is a reserved (underscore) key. */
  predicate NoReserved(n: Node) {
    forall k | k in n.children :: !Reserved(k) && NoReserved(n.children[k])
  }

  /** The nodes of a subtree, its root included. */
  function Sub(n: Node): set<Node> {
    {n} + (set k, x | k in n.children && x in Sub(n.children[k]) :: x)
  }

  /** The paths of a subtree, its root's included. */
  function PathsOf(n: Node): set<Path> {
    {n.path} + (set k, p | k in n.children && p in PathsOf(n.children[k]) :: p)
  }

  /** `a` and `b` have the same keys, paths and child structure; masks may differ. */
  predicate SameShape(a: Node, b: Node) {
    && a.key == b.key && a.path == b.path && a.children.Keys == b.children.Keys
    && forall k | k in a.children :: SameShape(a.children[k], b.children[k])
  }

  /** `a` and `b` differ at most in their inherited masks. */
  predicate SameRules(a: Node, b: Node) {
    && a.key == b.key && a.path == b.path && a.permissions == b.permissions
    && a.children.Keys == b.children.Keys
    && forall k | k in a.children :: SameRules(a.children[k], b.children[k])
  }

  /** `b` keeps every node of `a` at its key and path, with an own mask that only grew. */
  predicate Extends(a: Node, b: Node) {
    && a.key == b.key && a.path == b.path && Within(a.permissions, b.permissions)
    && a.children.Keys <= b.children.Keys
    && forall k | k in a.children :: Extends(a.children[k], b.children[k])
  }

  /** Every own mask of the subtree lies within the reference mask `f` gives its path. */
  predicate OwnBounded(n: Node, f: Path -> Mask) {
    Within(n.permissions, f(n.path)) && forall k | k in n.children :: OwnBounded(n.children[k], f)
  }

  /** Every effective mask of the subtree lies within the reference mask of its path. */
  predicate EffBounded(n: Node, f: Path -> Mask) {
    Within(Eff(n), f(n.path)) && forall k | k in n.children :: EffBounded(n.children[k], f)
  }

  /** The reference masks never shrink from a node to its children. */
  predicate Monotone(f: Path -> Mask, n: Node) {
    forall k | k in n.children :: Within(f(n.path), f(n.children[k].path)) && Monotone(f, n.children[k])
  }

  lemma {:induction false} SameRulesReflexive(n: Node)
    ensures SameRules(n, n)
  {
    forall k | k in n.children {
      SameRulesReflexive(n.children[k]);
    }
  }

  lemma {:induction false} SameShapeReflexive(n: Node)
    ensures SameShape(n, n)
  {
    forall k | k in n.children {
      SameShapeReflexive(n.children[k]);
    }
  }

  lemma {:induction false} SameRulesShape(a: Node, b: Node)
    requires SameRules(a, b)
    ensures SameShape(a, b)
  {
    forall k | k in a.children {
      SameRulesShape(a.children[k], b.children[k]);
    }
  }

  /** Nodes of the same shape have the same paths. */
  lemma {:induction false} SameShapePaths(a: Node, b: Node)
    requires SameShape(a, b)
    ensures PathsOf(a) == PathsOf(b)
  {
    forall k | k in a.children {
      SameShapePaths(a.children[k], b.children[k]);
    }
  }

  /** Well-formedness only depends on the shape. */
  lemma {:induction false} SameShapeWellFormed(a: Node, b: Node)
    requires SameShape(a, b) && WellFormed(a)
    ensures WellFormed(b)
  {
    forall k | k in a.children {
      SameShapeWellFormed(a.children[k], b.children[k]);
    }
  }

  lemma {:induction false} SameShapeMonotone(f: Path -> Mask, a: Node, b: Node)
    requires SameShape(a, b) && Monotone(f, a)
    ensures Monotone(f, b)
  {
    forall k | k in a.children {
      SameShapeMonotone(f, a.children[k], b.children[k]);
    }
  }

  lemma {:induction false} SameShapeNoReserved(a: Node, b: Node)
    requires SameShape(a, b) && NoReserved(a)
    ensures NoReserved(b)
  {
    forall k | k in a.children {
      SameShapeNoReserved(a.children[k], b.children[k]);
    }
  }

  /** A consistent subtree is determined by its shape, its own masks and its root's
      inherited mask. */
  lemma {:induction false} ConsistentUnique(a: Node, b: Node)
    requires SameRules(a, b) && Consistent(a) && Consistent(b) && a.inherited == b.inherited
    ensures a == b
  {
    forall k | k in a.children
      ensures a.children[k] == b.children[k]
    {
      ConsistentUnique(a.children[k], b.children[k]);
    }
    assert a.children == b.children;
  }

  /** The snapshot constructor `Permission(snapshot, path, inherited)`: the root of the rules
      keeps a null key; the own mask is the `_permissions` value (0 without one); every child
      whose key is not reserved is hydrated below `path` and inherits this node's effective
      mask. */
  function Hydrate(s: Snapshot, key: string, path: Path, inherited: Mask): (r: Node)
    ensures r.path == path && r.inherited == inherited
    ensures r.key == (if path.None? then None else Some(key))
    ensures r.permissions == s.permissions.GetOr(NONE)
    ensures r.children.Keys == set k | k in s.children && !Reserved(k)
    decreases s
  {
    var own := Or(NONE, s.permissions.GetOr(NONE));
    var e := Or(own, inherited);
    var cs := map k | k in s.children && !Reserved(k) :: Hydrate(s.children[k], k, Some(ChildPath(path, k)), e);
    assert cs.Keys == set k | k in s.children && !Reserved(k);
    Node(if path.None? then None else Some(key), path, inherited, own, cs)
  }

  /** Hydration builds every child at `parent + "/" + key` (just `key` under the root), under
      its own key, inheriting its parent's effective mask, and never from a reserved key. */
  lemma {:induction false} HydrateConsistent(s: Snapshot, key: string, path: Path, inherited: Mask)
    ensures var r := Hydrate(s, key, path, inherited);
      && (forall k | k in r.children ::
            r.children[k].path == Some(ChildPath(path, k)) && r.children[k].key == Some(k))
      && Consistent(r) && NoReserved(r)
    decreases s
  {
    var r := Hydrate(s, key, path, inherited);
    forall k | k in r.children
      ensures Consistent(r.children[k]) && NoReserved(r.children[k])
    {
      HydrateConsistent(s.children[k], k, Some(ChildPath(path, k)), Eff(r));
    }
  }

  /** A snapshot holding only valid store keys hydrates to a well-formed tree. */
  lemma {:induction false} HydrateWellFormed(s: Snapshot, key: string, path: Path, inherited: Mask)
    requires StoreKeys(s) && Relative(path)
    ensures WellFormed(Hydrate(s, key, path, inherited))
    decreases s
  {
    var r := Hydrate(s, key, path, inherited);
    forall k | k in r.children
      ensures WellFormed(r.children[k])
    {
      ChildPathRelative(path, k);
      HydrateWellFormed(s.children[k], k, Some(ChildPath(path, k)), Eff(r));
    }
  }

  /** setInherited(m): when `m` differs from the inherited mask, the node takes it and every
      child is given the new effective mask; otherwise nothing changes. */
  function SetInherited(n: Node, m: Mask): (r: Node)
    ensures r.inherited == m
    ensures r.key == n.key && r.path == n.path && r.permissions == n.permissions
    ensures r.children.Keys == n.children.Keys
    ensures n.inherited == m ==> r == n
    decreases n
  {
    if n.inherited == m then n
    else
      var e := Or(n.permissions, m);
      var cs := map k | k in n.children :: SetInherited(n.children[k], e);
      assert cs.Keys == n.children.Keys;
      Node(n.key, n.path, m, n.permissions, cs)
  }

  /** setInherited only changes inherited masks. */
  lemma {:induction false} SetInheritedRules(n: Node, m: Mask)
    ensures SameRules(n, SetInherited(n, m))
    decreases n
  {
    if n.inherited == m {
      SameRulesReflexive(n);
    } else {
      forall k | k in n.children {
        SetInheritedRules(n.children[k], Or(n.permissions, m));
      }
    }
  }

  /** setInherited keeps a consistent subtree consistent. */
  lemma {:induction false} SetInheritedConsistent(n: Node, m: Mask)
    requires Consistent(n)
    ensures Consistent(SetInherited(n, m))
    decreases n
  {
    var r := SetInherited(n, m);
    if n.inherited != m {
      forall k | k in r.children
        ensures r.children[k].inherited == Eff(r) && Consistent(r.children[k])
      {
        SetInheritedConsistent(n.children[k], Eff(r));
      }
    }
  }

  /** The common step of the own-mask mutators: the node takes own mask `p` and every child is
      given the new effective mask. */
  function WithOwn(n: Node, p: Mask): (r: Node)
    ensures r.key == n.key && r.path == n.path && r.inherited == n.inherited && r.permissions == p
    ensures r.children.Keys == n.children.Keys
  {
    var e := Or(p, n.inherited);
    var cs := map k | k in n.children :: SetInherited(n.children[k], e);
    assert cs.Keys == n.children.Keys;
    Node(n.key, n.path, n.inherited, p, cs)
  }

  /** Below the node, the own-mask step only changes inherited masks, and it keeps a
      consistent subtree consistent. */
  lemma WithOwnRules(n: Node, p: Mask)
    ensures forall k | k in n.children :: SameRules(n.children[k], WithOwn(n, p).children[k])
    ensures Consistent(n) ==> Consistent(WithOwn(n, p))
  {
    var r := WithOwn(n, p);
    forall k | k in n.children
      ensures SameRules(n.children[k], r.children[k])
      ensures Consistent(n) ==> r.children[k].inherited == Eff(r) && Consistent(r.children[k])
    {
      SetInheritedRules(n.children[k], Eff(r));
      if Consistent(n) {
        SetInheritedConsistent(n.children[k], Eff(r));
      }
    }
  }

  /** addPermissions(m): ORs `m` into the own mask, never clearing a bit; when `m` equals the
      own mask exactly the node is left as it is. */
  function AddPermissions(n: Node, m: Mask): (r: Node)
    ensures r.permissions == Or(n.permissions, m) && Within(n.permissions, r.permissions)
    ensures n.permissions == m ==> r == n
    ensures r.key == n.key && r.path == n.path && r.inherited == n.inherited
    ensures r.children.Keys == n.children.Keys
  {
    OrBounds(n.permissions, m);
    if n.permissions.bits ^ m.bits != 0 then WithOwn(n, Or(n.permissions, m)) else n
  }

  /** addPermissions changes only the node's own mask and the inherited masks below it, and
      keeps a consistent subtree consistent. */
  lemma AddPermissionsConsistent(n: Node, m: Mask)
    ensures forall k | k in n.children :: SameRules(n.children[k], AddPermissions(n, m).children[k])
    ensures Consistent(n) ==> Consistent(AddPermissions(n, m))
  {
    if n.permissions.bits ^ m.bits != 0 {
      WithOwnRules(n, Or(n.permissions, m));
    } else {
      forall k | k in n.children {
        SameRulesReflexive(n.children[k]);
      }
    }
  }

  /** removePermissions(m): clears exactly the bits of `m` from the own mask. */
  function RemovePermissions(n: Node, m: Mask): (r: Node)
    ensures Disjoint(r.permissions, m)
    ensures Without(r.permissions, m) == Without(n.permissions, m)
    ensures r.key == n.key && r.path == n.path && r.inherited == n.inherited
    ensures r.children.Keys == n.children.Keys
  {
    WithOwn(n, Without(n.permissions, m))
  }

  /** removePermissions changes only the node's own mask and the inherited masks below it,
      and keeps a consistent subtree consistent. */
  lemma RemovePermissionsConsistent(n: Node, m: Mask)
    ensures forall k | k in n.children :: SameRules(n.children[k], RemovePermissions(n, m).children[k])
    ensures Consistent(n) ==> Consistent(RemovePermissions(n, m))
  {
    WithOwnRules(n, Without(n.permissions, m));
  }

  /** checkPermissions(reference): narrows the own mask to the bits it shares with
      `reference`. */
  function CheckPermissions(n: Node, reference: Mask): (r: Node)
    ensures Within(r.permissions, reference) && Within(r.permissions, n.permissions)
    ensures Within(And(n.permissions, reference), r.permissions)
    ensures r.key == n.key && r.path == n.path && r.inherited == n.inherited
    ensures r.children.Keys == n.children.Keys
  {
    AndBounds(n.permissions, reference);
    WithOwn(n, And(n.permissions, reference))
  }

  /** checkPermissions(reference) keeps a consistent subtree consistent. */
  lemma CheckPermissionsConsistent(n: Node, reference: Mask)
    ensures forall k | k in n.children :: SameRules(n.children[k], CheckPermissions(n, reference).children[k])
    ensures Consistent(n) ==> Consistent(CheckPermissions(n, reference))
  {
    WithOwnRules(n, And(n.permissions, reference));
  }

  /** The same pass as setInherited without its early exit: the node takes `m` and every
      child is relinked to the new effective mask, whatever its inherited mask was. */
  function Relink(n: Node, m: Mask): (r: Node)
    ensures r.inherited == m
    ensures r.key == n.key && r.path == n.path && r.permissions == n.permissions
    ensures r.children.Keys == n.children.Keys
    decreases n
  {
    var e := Or(n.permissions, m);
    var cs := map k | k in n.children :: Relink(n.children[k], e);
    assert cs.Keys == n.children.Keys;
    Node(n.key, n.path, m, n.permissions, cs)
  }

  /** Relinking only changes inherited masks and always yields a consistent subtree. */
  lemma {:induction false} RelinkConsistent(n: Node, m: Mask)
    ensures SameRules(n, Relink(n, m)) && Consistent(Relink(n, m))
    decreases n
  {
    var r := Relink(n, m);
    forall k | k in n.children
      ensures SameRules(n.children[k], r.children[k])
      ensures r.children[k].inherited == Eff(r) && Consistent(r.children[k])
    {
      RelinkConsistent(n.children[k], Eff(r));
    }
  }

  /** On a consistent subtree the early exit of setInherited loses nothing. */
  lemma SetInheritedIsRelink(n: Node, m: Mask)
    requires Consistent(n)
    ensures SetInherited(n, m) == Relink(n, m)
  {
    SetInheritedRules(n, m);
    SetInheritedConsistent(n, m);
    RelinkConsistent(n, m);
    SameRulesSymmetric(n, SetInherited(n, m));
    SameRulesTransitive(SetInherited(n, m), n, Relink(n, m));
    ConsistentUnique(SetInherited(n, m), Relink(n, m));
  }

  lemma {:induction false} SameRulesSymmetric(a: Node, b: Node)
    requires SameRules(a, b)
    ensures SameRules(b, a)
  {
    forall k | k in b.children {
      SameRulesSymmetric(a.children[k], b.children[k]);
    }
  }

  lemma {:induction false} SameRulesTransitive(a: Node, b: Node, c: Node)
    requires SameRules(a, b) && SameRules(b, c)
    ensures SameRules(a, c)
  {
    forall k | k in a.children {
      SameRulesTransitive(a.children[k], b.children[k], c.children[k]);
    }
  }

  lemma {:induction false} SameShapeTransitive(a: Node, b: Node, c: Node)
    requires SameShape(a, b) && SameShape(b, c)
    ensures SameShape(a, c)
  {
    forall k | k in a.children {
      SameShapeTransitive(a.children[k], b.children[k], c.children[k]);
    }
  }

  lemma {:induction false} SameRulesOwnBounded(a: Node, b: Node, f: Path -> Mask)
    requires SameRules(a, b) && OwnBounded(a, f)
    ensures OwnBounded(b, f)
  {
    forall k | k in b.children {
      SameRulesOwnBounded(a.children[k], b.children[k], f);
    }
  }

  /** The first pass of checkPermissions(tree): every own mask of the subtree is narrowed to
      the reference mask of its path; inherited masks are left as they were. */
  function ClipOwn(n: Node, f: Path -> Mask): (r: Node)
    ensures r.key == n.key && r.path == n.path && r.inherited == n.inherited
    ensures Within(r.permissions, f(n.path)) && Within(r.permissions, n.permissions)
    ensures r.children.Keys == n.children.Keys
    decreases n
  {
    var own := And(n.permissions, f(n.path));
    AndBounds(n.permissions, f(n.path));
    var cs := map k | k in n.children :: ClipOwn(n.children[k], f);
    assert cs.Keys == n.children.Keys;
    Node(n.key, n.path, n.inherited, own, cs)
  }

  /** Clipping keeps the shape and bounds every own mask, at every depth, by its reference. */
  lemma {:induction false} ClipOwnBounded(n: Node, f: Path -> Mask)
    ensures SameShape(n, ClipOwn(n, f)) && OwnBounded(ClipOwn(n, f), f)
    ensures Extends(ClipOwn(n, f), n)
    decreases n
  {
    forall k | k in n.children {
      ClipOwnBounded(n.children[k], f);
    }
  }

  /** checkPermissions(tree) as written: after clipping every own mask it only calls the
      guarded setInherited at the subtree's root, so inherited masks below are updated only
      where that pass happens to reach. */
  function CheckAgainstAsWritten(n: Node, f: Path -> Mask): (r: Node)
    ensures r.key == n.key && r.path == n.path
    ensures Within(r.inherited, f(n.path)) && Within(r.inherited, n.inherited)
  {
    AndBounds(n.inherited, f(n.path));
    SetInherited(ClipOwn(n, f), And(n.inherited, f(n.path)))
  }

  /** The check as written keeps the shape and bounds every own mask by its reference; only
      the inherited masks below the root may be stale. */
  lemma CheckAgainstAsWrittenBounded(n: Node, f: Path -> Mask)
    ensures var r := CheckAgainstAsWritten(n, f);
      SameShape(n, r) && OwnBounded(r, f)
  {
    var c := ClipOwn(n, f);
    var r := CheckAgainstAsWritten(n, f);
    AndBounds(n.inherited, f(n.path));
    ClipOwnBounded(n, f);
    SetInheritedRules(c, And(n.inherited, f(n.path)));
    SameRulesShape(c, r);
    SameShapeTransitive(n, c, r);
    SameRulesOwnBounded(c, r, f);
  }

  /** checkPermissions(tree) as evidently intended ("check no permissions exceed parent"):
      after clipping every own mask, the inherited masks are recomputed throughout. */
  function CheckAgainst(n: Node, f: Path -> Mask): (r: Node)
    ensures r.key == n.key && r.path == n.path
    ensures Within(r.inherited, f(n.path)) && Within(r.inherited, n.inherited)
  {
    AndBounds(n.inherited, f(n.path));
    Relink(ClipOwn(n, f), And(n.inherited, f(n.path)))
  }

  /** The corrected check keeps the shape, bounds every own mask by its reference, and leaves
      a consistent subtree; when the reference masks never shrink from parent to child, every
      effective mask lies within the reference mask of its path. */
  lemma CheckAgainstBounded(n: Node, f: Path -> Mask)
    ensures var r := CheckAgainst(n, f);
      && SameShape(n, r) && Consistent(r) && OwnBounded(r, f)
      && (Monotone(f, n) ==> EffBounded(r, f))
  {
    var c := ClipOwn(n, f);
    var r := CheckAgainst(n, f);
    ClipOwnBounded(n, f);
    RelinkConsistent(c, And(n.inherited, f(n.path)));
    SameRulesShape(c, r);
    SameShapeTransitive(n, c, r);
    SameRulesOwnBounded(c, r, f);
    if Monotone(f, n) {
      SameShapeMonotone(f, n, r);
      ConsistentBounded(r, f);
    }
  }

  /** In a consistent subtree whose own masks and root inherited mask respect monotone
      reference masks, every effective mask does. */
  lemma {:induction false} ConsistentBounded(n: Node, f: Path -> Mask)
    requires Consistent(n) && OwnBounded(n, f) && Within(n.inherited, f(n.path)) && Monotone(f, n)
    ensures EffBounded(n, f)
  {
    forall k | k in n.children
      ensures EffBounded(n.children[k], f)
    {
      ConsistentBounded(n.children[k], f);
    }
  }

  /** The as-written checkPermissions(tree) leaves a stale inherited mask: a child that
      inherited bit 0 keeps it after the reference clears every bit, so the tree is no longer
      consistent and the child's effective mask exceeds its reference. */
  lemma CheckAgainstAsWrittenLeavesStaleMask()
    ensures var n := Node(None, None, NONE, Mask(1), map["a" := Node(Some("a"), Some("a"), Mask(1), NONE, map[])]);
            var f := (p: Path) => NONE;
            && WellFormed(n) && Consistent(n) && Monotone(f, n)
            && !Consistent(CheckAgainstAsWritten(n, f))
            && !EffBounded(CheckAgainstAsWritten(n, f), f)
  {
    var child := Node(Some("a"), Some("a"), Mask(1), NONE, map[]);
    var n := Node(None, None, NONE, Mask(1), map["a" := child]);
    var f := (p: Path) => NONE;
    var c := ClipOwn(n, f);
    assert c.children["a"] == ClipOwn(child, f);
    var r := CheckAgainstAsWritten(n, f);
    assert r == c;
    assert r.children["a"].inherited == Mask(1);
    assert Eff(r) == NONE;
  }

  /** The index of the first delimiter, or -1. */
  function FirstDelimiter(s: string): (i: int)
    ensures -1 <= i < |s|
    ensures i >= 0 ==> s[i] == '/' && '/' !in s[..i]
    ensures i == -1 <==> '/' !in s
  {
    if |s| == 0 then -1
    else if s[0] == '/' then 0
    else
      var j := FirstDelimiter(s[1..]);
      assert forall c :: c in s[1..] ==> c in s;
      if j == -1 then
        assert s == [s[0]] + s[1..];
        -1
      else
        assert s[..j + 1] == [s[0]] + s[1..][..j];
        j + 1
  }

  /** child(path) as written: for a path holding a delimiter the descent loop's condition is
      false at once, so the node itself comes back; a single key is looked up among the
      children. */
  function ChildAsWritten(n: Node, path: string): (r: Option<Node>)
    ensures '/' !in path ==> (r.Some? <==> path in n.children)
    ensures '/' !in path && r.Some? ==> r.value == n.children[path]
  {
    if '/' in path then Some(n)
    else if path in n.children then Some(n.children[path])
    else None
  }

  /** child(path) as evidently intended: descend one key per `/`-separated segment. A node
      found lies in the subtree, at the path of `path` below this node. */
  function ChildAt(n: Node, path: string): (r: Option<Node>)
    ensures WellFormed(n) && r.Some? ==>
      r.value in Sub(n) && r.value.path == Some(ChildPath(n.path, path))
    ensures '/' !in path ==> r == ChildAsWritten(n, path)
    decreases |path|
  {
    var i := FirstDelimiter(path);
    if i == -1 then
      if path in n.children then
        assert n.children[path] in Sub(n.children[path]);
        Some(n.children[path])
      else None
    else if path[..i] in n.children then
      var c := n.children[path[..i]];
      var r := ChildAt(c, path[i + 1..]);
      assert path == path[..i] + "/" + path[i + 1..];
      assert WellFormed(n) && r.Some? ==> r.value in Sub(n) by {
        if WellFormed(n) && r.Some? {
          assert r.value in Sub(c);
        }
      }
      assert WellFormed(n) && r.Some? ==> r.value.path == Some(ChildPath(n.path, path)) by {
        if WellFormed(n) && r.Some? {
          assert c.path == Some(ChildPath(n.path, path[..i]));
          assert r.value.path == Some(ChildPath(c.path, path[i + 1..]));
          if n.path.Some? {
            assert ChildPath(n.path, path[..i]) + "/" + path[i + 1..]
                == n.path.value + "/" + (path[..i] + "/" + path[i + 1..]);
          }
        }
      }
      r
    else
      None
  }

  /** The as-written child returns the node itself for a two-segment path, where the intended
      descent finds the grandchild at that path. */
  lemma ChildAsWrittenIgnoresSegments()
    ensures var b := Node(Some("b"), Some("a/b"), NONE, NONE, map[]);
            var a := Node(Some("a"), Some("a"), NONE, NONE, map["b" := b]);
            var n := Node(None, None, NONE, NONE, map["a" := a]);
            && WellFormed(n)
            && ChildAsWritten(n, "a/b") == Some(n)
            && ChildAt(n, "a/b") == Some(b)
            && n.path != Some(ChildPath(n.path, "a/b"))
  {
    var b := Node(Some("b"), Some("a/b"), NONE, NONE, map[]);
    var a := Node(Some("a"), Some("a"), NONE, NONE, map["b" := b]);
    var n := Node(None, None, NONE, NONE, map["a" := a]);
    assert "a/b"[1] == '/';
    assert FirstDelimiter("a/b") == 1 by {
      assert "a/b"[0] != '/';
      assert "a/b"[1..] == "/b";
    }
    assert "a/b"[..1] == "a" && "a/b"[2..] == "b";
    assert ChildPath(Some("a"), "b") == "a/b";
  }
}
