/** Rule paths: `/`-separated keys, with Java's null standing for the root rule.
    This module holds the specification of the nearest-ancestor search that
    `Utils.getNearestCommonAncestor` and `PermissionManager.getNearestCommonAncestor`
    implement, and of the wildcard expansion `PermissionManager.getAllPaths`. */
module Paths {
  import opened Wrappers

  /** A rule path; `None` is Java's null, under which the root rule is indexed. */
  type Path = Option<string>

  /** The exception the nearest-ancestor search throws ("Path can't start with /"). */
  datatype PathError = LeadingDelimiter

  predicate StartsWithDelimiter(s: string) {
    |s| > 0 && s[0] == '/'
  }

  /** `String.lastIndexOf("/")`: the position of the last delimiter, or -1. */
  function LastDelimiter(s: string): (i: int)
    ensures -1 <= i < |s|
    ensures i >= 0 ==> s[i] == '/'
    ensures forall j :: i < j < |s| ==> s[j] != '/'
  {
    if |s| == 0 then -1
    else if s[|s| - 1] == '/' then |s| - 1
    else LastDelimiter(s[..|s| - 1])
  }

  /** `t` is a proper ancestor of `s`: a prefix of `s` cut just before a delimiter. */
  predicate AncestorOf(t: string, s: string) {
    |t| < |s| && s[..|t|] == t && s[|t|] == '/'
  }

  /** `q` is `p` itself or an ancestor of `p`; the root rule (null) is above every path. */
  predicate AtOrAbove(q: Path, p: Path) {
    q.None? || (p.Some? && (q == p || AncestorOf(q.value, p.value)))
  }

  /** `q` lies strictly above `p`. */
  predicate Above(q: Path, p: Path) {
    AtOrAbove(q, p) && q != p
  }

  /** The path of child `key` under `parent`: `parent + "/" + key`, or just `key` under the root. */
  function ChildPath(parent: Path, key: string): string {
    if parent.None? then key else parent.value + "/" + key
  }

  lemma AncestorTransitive(a: string, b: string, c: string)
    requires AncestorOf(a, b) && AncestorOf(b, c)
    ensures AncestorOf(a, c)
  {
    assert c[..|a|] == c[..|b|][..|a|];
  }

  lemma AtOrAboveTransitive(a: Path, b: Path, c: Path)
    requires AtOrAbove(a, b) && AtOrAbove(b, c)
    ensures AtOrAbove(a, c)
  {
    if a.Some? && a != b && b != c {
      AncestorTransitive(a.value, b.value, c.value);
    }
  }

  /** Two ancestors of the same path are comparable: the shorter is above the longer. */
  lemma AncestorsComparable(a: string, b: string, s: string)
    requires AncestorOf(a, s) && AncestorOf(b, s) && |a| <= |b|
    ensures a == b || AncestorOf(a, b)
  {
    assert b[..|a|] == s[..|b|][..|a|];
  }

  lemma AtOrAboveAntisymmetric(p: Path, q: Path)
    requires AtOrAbove(p, q) && AtOrAbove(q, p)
    ensures p == q
  {
  }

  lemma ChildPathBelow(parent: Path, key: string)
    ensures AtOrAbove(parent, Some(ChildPath(parent, key)))
    ensures parent != Some(ChildPath(parent, key))
  {
    if parent.Some? {
      var s := ChildPath(parent, key);
      assert s[..|parent.value|] == parent.value;
    }
  }

  /** Two paths at or above the same path are comparable. */
  lemma AtOrAboveComparable(a: Path, b: Path, x: Path)
    requires AtOrAbove(a, x) && AtOrAbove(b, x)
    ensures AtOrAbove(a, b) || AtOrAbove(b, a)
  {
    if a.Some? && b.Some? && a != x && b != x {
      if |a.value| <= |b.value| {
        AncestorsComparable(a.value, b.value, x.value);
      } else {
        AncestorsComparable(b.value, a.value, x.value);
      }
    }
  }

  /** A path below `a` is unrelated to anything `a` is unrelated to. */
  lemma BelowUnrelated(s: Path, a: Path, c: Path)
    requires !AtOrAbove(s, a) && !AtOrAbove(a, s) && AtOrAbove(a, c)
    ensures !AtOrAbove(s, c) && !AtOrAbove(c, s)
  {
    if AtOrAbove(s, c) {
      AtOrAboveComparable(s, a, c);
    }
    if AtOrAbove(c, s) {
      AtOrAboveTransitive(a, c, s);
    }
  }

  /** A path below `a` is not at or above anything `a` is not at or above. */
  lemma BelowNotAbove(a: Path, c: Path, v: Path)
    requires AtOrAbove(a, c) && !AtOrAbove(a, v)
    ensures !AtOrAbove(c, v)
  {
    if AtOrAbove(c, v) {
      AtOrAboveTransitive(a, c, v);
    }
  }

  /** The paths of two different valid keys under the same parent are unrelated. */
  lemma SiblingsUnrelated(parent: Path, k1: string, k2: string)
    requires ValidKey(k1) && ValidKey(k2) && k1 != k2
    ensures !AtOrAbove(Some(ChildPath(parent, k1)), Some(ChildPath(parent, k2)))
  {
    var a := ChildPath(parent, k1);
    var b := ChildPath(parent, k2);
    var prefix := if parent.None? then "" else parent.value + "/";
    assert a == prefix + k1 && b == prefix + k2;
    assert a[|prefix|..] == k1 && b[|prefix|..] == k2;
    if |a| < |b| && b[..|a|] == a {
      assert b[|prefix|..][..|k1|] == k1;
      assert b[|a|] == k2[|k1|];
      assert k2[|k1|] in k2;
    }
  }

  /** No path lies at or below two different children of the same parent. */
  lemma SiblingPathsDisjoint(parent: Path, k1: string, k2: string, x: Path)
    requires ValidKey(k1) && ValidKey(k2) && k1 != k2
    ensures !(AtOrAbove(Some(ChildPath(parent, k1)), x) && AtOrAbove(Some(ChildPath(parent, k2)), x))
  {
    if AtOrAbove(Some(ChildPath(parent, k1)), x) && AtOrAbove(Some(ChildPath(parent, k2)), x) {
      AtOrAboveComparable(Some(ChildPath(parent, k1)), Some(ChildPath(parent, k2)), x);
      SiblingsUnrelated(parent, k1, k2);
      SiblingsUnrelated(parent, k2, k1);
    }
  }

  /** The search loop of getNearestCommonAncestor: the delimiter-cut prefixes of `sub`,
      tried from the longest to the shortest, the first one in `ancestors` winning. */
  function Nearest(sub: string, ancestors: set<Path>): Path
    decreases |sub|
  {
    var i := LastDelimiter(sub);
    if i == -1 then None
    else if Some(sub[..i]) in ancestors then Some(sub[..i])
    else Nearest(sub[..i], ancestors)
  }

  /** getNearestCommonAncestor(path, ancestors) as a value, the exception as `Err`. */
  function NearestAncestor(path: Path, ancestors: set<Path>): Result<Path, PathError> {
    if path.None? || path in ancestors then Ok(path)
    else if StartsWithDelimiter(path.value) then Err(LeadingDelimiter)
    else Ok(Nearest(path.value, ancestors))
  }

  /** A non-null search result is a member of the set and a proper ancestor of `sub`. */
  lemma {:induction false} NearestSound(sub: string, ancestors: set<Path>)
    ensures Nearest(sub, ancestors).Some? ==>
      Nearest(sub, ancestors) in ancestors && AncestorOf(Nearest(sub, ancestors).value, sub)
    decreases |sub|
  {
    var i := LastDelimiter(sub);
    if i != -1 && Some(sub[..i]) !in ancestors {
      NearestSound(sub[..i], ancestors);
      if Nearest(sub, ancestors).Some? {
        AncestorTransitive(Nearest(sub, ancestors).value, sub[..i], sub);
      }
    }
  }

  /** Every ancestor of `sub` that is in the set is no longer than the search result,
      so the result is the longest one, and it is null only when there is none. */
  lemma {:induction false} NearestLongest(sub: string, ancestors: set<Path>, a: string)
    requires AncestorOf(a, sub) && Some(a) in ancestors
    ensures Nearest(sub, ancestors).Some? && |a| <= |Nearest(sub, ancestors).value|
    decreases |sub|
  {
    var i := LastDelimiter(sub);
    assert sub[|a|] == '/';
    assert |a| <= i;
    if |a| < i && Some(sub[..i]) !in ancestors {
      assert sub[..i][..|a|] == a;
      NearestLongest(sub[..i], ancestors, a);
    }
  }

  /** The search only asks about non-null members of the set. */
  lemma {:induction false} NearestNonNull(sub: string, a: set<Path>, b: set<Path>)
    requires forall s :: Some(s) in a <==> Some(s) in b
    ensures Nearest(sub, a) == Nearest(sub, b)
    decreases |sub|
  {
    var i := LastDelimiter(sub);
    if i != -1 {
      NearestNonNull(sub[..i], a, b);
    }
  }

  /** The contract of getNearestCommonAncestor: null or a member is returned unchanged; the
      call throws exactly for a non-member starting with `/`; otherwise the result is the
      longest ancestor in the set, or null when the set holds no ancestor. */
  lemma NearestAncestorSpec(path: Path, ancestors: set<Path>)
    ensures path.None? || path in ancestors ==> NearestAncestor(path, ancestors) == Ok(path)
    ensures NearestAncestor(path, ancestors).Err? <==>
      path.Some? && path !in ancestors && StartsWithDelimiter(path.value)
    ensures NearestAncestor(path, ancestors).Ok? ==>
      var r := NearestAncestor(path, ancestors).value;
      && AtOrAbove(r, path)
      && (r.Some? ==> r in ancestors)
      && (path.Some? ==> forall a :: Some(a) in ancestors && AncestorOf(a, path.value) ==>
            r.Some? && |a| <= |r.value|)
  {
    if path.Some? && path !in ancestors && !StartsWithDelimiter(path.value) {
      NearestSound(path.value, ancestors);
      forall a | Some(a) in ancestors && AncestorOf(a, path.value)
        ensures Nearest(path.value, ancestors).Some? && |a| <= |Nearest(path.value, ancestors).value|
      {
        NearestLongest(path.value, ancestors, a);
      }
    }
  }

  /** A path naming a rule below the root: non-empty and not starting with the delimiter
      (or the root rule itself). */
  predicate Relative(p: Path) {
    p.None? || (|p.value| > 0 && !StartsWithDelimiter(p.value))
  }

  /** A store key: non-empty and free of the delimiter, as the store demands of its keys. */
  predicate ValidKey(k: string) {
    |k| > 0 && '/' !in k
  }

  /** Keys with a leading underscore hold metadata, not child rules. */
  predicate Reserved(k: string) {
    |k| > 0 && k[0] == '_'
  }

  lemma AboveRelativeIsRelative(q: Path, p: Path)
    requires AtOrAbove(q, p) && Relative(p)
    ensures Relative(q)
  {
    if q.Some? && q != p {
      assert q.value[0] == p.value[..|q.value|][0];
    }
  }

  lemma ChildPathRelative(parent: Path, key: string)
    requires Relative(parent) && ValidKey(key)
    ensures Relative(Some(ChildPath(parent, key)))
  {
    if parent.None? {
      assert key[0] in key;
    } else {
      assert ChildPath(parent, key)[0] == parent.value[0];
    }
  }

  /** The search never fails on a relative path. */
  lemma RelativeNeverThrows(path: Path, ancestors: set<Path>)
    requires Relative(path)
    ensures NearestAncestor(path, ancestors).Ok?
  {
  }

  /** The search is monotone: a path at or above `p` resolves at or above where `p` resolves. */
  lemma NearestAncestorMonotone(p: Path, q: Path, ancestors: set<Path>)
    requires Relative(p) && AtOrAbove(q, p)
    ensures Relative(q)
    ensures NearestAncestor(p, ancestors).Ok? && NearestAncestor(q, ancestors).Ok?
    ensures AtOrAbove(NearestAncestor(q, ancestors).value, NearestAncestor(p, ancestors).value)
  {
    AboveRelativeIsRelative(q, p);
    NearestAncestorSpec(p, ancestors);
    NearestAncestorSpec(q, ancestors);
    var np := NearestAncestor(p, ancestors).value;
    var nq := NearestAncestor(q, ancestors).value;
    if nq.Some? {
      AtOrAboveTransitive(nq, q, p);
      if p !in ancestors {
        assert nq != p;
        assert AncestorOf(nq.value, p.value);
        assert np.Some? && |nq.value| <= |np.value|;
        AncestorsComparable(nq.value, np.value, p.value);
      }
    }
  }

  // getAllPaths(path): the path itself, the global wildcard, and the wildcard under
  // every proper ancestor of the path.
  function AllPaths(path: string): set<string> {
    {path, "*"} + (set k | 0 <= k < |path| && path[k] == '/' :: path[..k] + "/*")
  }

  // A wildcard registration under `q` matches a request path exactly when `q` is a
  // proper ancestor of it: it does not match the path `q` itself.
  lemma WildcardMatchesDescendants(q: string, path: string)
    ensures q + "/*" in AllPaths(path) <==> AncestorOf(q, path) || path == q + "/*"
  {
    var w := q + "/*";
    if AncestorOf(q, path) {
      assert path[..|q|] + "/*" == w;
    }
    if w in AllPaths(path) && w != path && w != "*" {
      var k :| 0 <= k < |path| && path[k] == '/' && w == path[..k] + "/*";
      assert |path[..k]| == |q|;
      assert path[..k] == w[..|q|] == q;
    }
    if w == path {
      assert path[..|q|] == q;
    }
  }
}
