/** The computations behind `PermissionManager.refreshPermissions`, as values: the table of
    permissions accumulated from the rules of the received blessings, the set of paths that
    changed against the previous cache, and the routing of listener paths to their nearest
    cached ancestor. */
module PermissionCache {
  import opened Wrappers
  import opened Paths
  import opened Masks

  /** A rule as the refresh loop reads it: the rule's path and its effective mask. */
  type Rule = (Path, Mask)

  /** A path getNearestCommonAncestor accepts whatever the set: null, or a path that does not
      start with the delimiter. */
  predicate Resolvable(p: Path) {
    p.None? || !StartsWithDelimiter(p.value)
  }

  /** getNearestCommonAncestor(p, keys) on a path it never refuses. */
  function Resolve(p: Path, keys: set<Path>): (r: Path)
    requires Resolvable(p)
    ensures AtOrAbove(r, p) && (r.Some? ==> r in keys)
    ensures p in keys ==> r == p
  {
    NearestAncestorSpec(p, keys);
    NearestAncestor(p, keys).value
  }

  /** The value a rule's path starts from: the value at its nearest accumulated ancestor (0
      when there is none), ORed with the value already at the path. */
  function Inherited(acc: map<Path, Mask>, p: Path): (m: Mask)
    requires Resolvable(p)
    ensures p in acc ==> Within(acc[p], m)
  {
    var q := Resolve(p, acc.Keys);
    var current := if q in acc then acc[q] else NONE;
    if p in acc then
      OrBounds(current, acc[p]);
      Or(current, acc[p])
    else current
  }

  /** One pass of the accumulation loop: the path takes its inherited value ORed with the
      rule's mask, and no other path changes. */
  function AddRule(acc: map<Path, Mask>, r: Rule): (acc': map<Path, Mask>)
    requires Resolvable(r.0)
    ensures r.0 in acc' && acc' == acc[r.0 := acc'[r.0]]
    ensures Within(r.1, acc'[r.0])
    ensures r.0 in acc ==> Within(acc[r.0], acc'[r.0])
  {
    var m := Inherited(acc, r.0);
    OrBounds(m, r.1);
    if r.0 in acc then
      WithinTransitive(acc[r.0], m, Or(m, r.1));
      acc[r.0 := Or(m, r.1)]
    else
      acc[r.0 := Or(m, r.1)]
  }

  predicate AllResolvable(rules: seq<Rule>) {
    forall i | 0 <= i < |rules| :: Resolvable(rules[i].0)
  }

  /** The accumulation loop over rules in the order they are read. */
  function Accumulate(acc: map<Path, Mask>, rules: seq<Rule>): map<Path, Mask>
    requires AllResolvable(rules)
    decreases |rules|
  {
    if rules == [] then acc
    else AddRule(Accumulate(acc, rules[..|rules| - 1]), rules[|rules| - 1])
  }

  /** getNearestCommonAncestor never throws on a resolvable path; its answer is `Resolve`. */
  lemma ResolveAgrees(p: Path, keys: set<Path>)
    requires Resolvable(p)
    ensures NearestAncestor(p, keys) == Ok(Resolve(p, keys))
  {
    NearestAncestorSpec(p, keys);
  }

  /** Reading one more rule is one more pass of the loop. */
  lemma AccumulateSnoc(rules: seq<Rule>, r: Rule)
    requires AllResolvable(rules) && Resolvable(r.0)
    ensures AllResolvable(rules + [r])
    ensures Accumulate(map[], rules + [r]) == AddRule(Accumulate(map[], rules), r)
  {
    assert (rules + [r])[..|rules|] == rules;
  }

  /** The elements of a sequence. */
  function Elements<T>(xs: seq<T>): set<T> {
    set i | 0 <= i < |xs| :: xs[i]
  }

  lemma ElementsOne<T>(x: T)
    ensures Elements([x]) == {x}
  {
    assert [x][0] == x;
  }

  lemma ElementsAppend<T>(a: seq<T>, b: seq<T>)
    ensures Elements(a + b) == Elements(a) + Elements(b)
  {
    var ab := a + b;
    assert forall i | 0 <= i < |a| :: ab[i] == a[i];
    assert forall i | 0 <= i < |b| :: ab[|a| + i] == b[i];
    forall e | e in Elements(ab)
      ensures e in Elements(a) + Elements(b)
    {
      var i :| 0 <= i < |ab| && ab[i] == e;
      if i >= |a| {
        assert b[i - |a|] == e;
      }
    }
  }

  /** The paths of a rule sequence. */
  function RulePaths(rules: seq<Rule>): set<Path> {
    set i | 0 <= i < |rules| :: rules[i].0
  }

  /** The accumulated table holds exactly the earlier paths and the rules' paths. */
  lemma {:induction false} AccumulateKeys(acc: map<Path, Mask>, rules: seq<Rule>)
    requires AllResolvable(rules)
    ensures Accumulate(acc, rules).Keys == acc.Keys + RulePaths(rules)
    decreases |rules|
  {
    if rules != [] {
      var init := rules[..|rules| - 1];
      AccumulateKeys(acc, init);
      assert RulePaths(rules) == RulePaths(init) + {rules[|rules| - 1].0} by {
        assert forall i | 0 <= i < |init| :: init[i] == rules[i];
      }
    }
  }

  /** Every path of an accumulated table is one getNearestCommonAncestor accepts. */
  lemma AccumulatedResolvable(rules: seq<Rule>)
    requires AllResolvable(rules)
    ensures forall p | p in Accumulate(map[], rules) :: Resolvable(p)
  {
    AccumulateKeys(map[], rules);
    forall p | p in Accumulate(map[], rules)
      ensures Resolvable(p)
    {
      var i :| 0 <= i < |rules| && rules[i].0 == p;
    }
  }

  /** Accumulating more rules never takes a flag away from a path already in the table. */
  lemma {:induction false} AccumulateGrows(acc: map<Path, Mask>, rules: seq<Rule>, p: Path)
    requires AllResolvable(rules) && p in acc
    ensures p in Accumulate(acc, rules)
    ensures Within(acc[p], Accumulate(acc, rules)[p])
    decreases |rules|
  {
    if rules != [] {
      var init := rules[..|rules| - 1];
      AccumulateGrows(acc, init, p);
      WithinTransitive(acc[p], Accumulate(acc, init)[p], Accumulate(acc, rules)[p]);
    }
  }

  /** Every rule's mask lies within the final value at its path, whatever came after it. */
  lemma {:induction false} AccumulateCovers(acc: map<Path, Mask>, rules: seq<Rule>, i: nat)
    requires AllResolvable(rules) && i < |rules|
    ensures rules[i].0 in Accumulate(acc, rules)
    ensures Within(rules[i].1, Accumulate(acc, rules)[rules[i].0])
  {
    var prefix := rules[..i + 1];
    assert AllResolvable(prefix) by {
      assert forall j | 0 <= j < |prefix| :: prefix[j] == rules[j];
    }
    assert prefix[..i] == rules[..i];
    var mid := Accumulate(acc, prefix);
    AccumulateSplit(acc, prefix, rules[i + 1..]);
    assert prefix + rules[i + 1..] == rules;
    AccumulateGrows(mid, rules[i + 1..], rules[i].0);
    WithinTransitive(rules[i].1, mid[rules[i].0], Accumulate(acc, rules)[rules[i].0]);
  }

  /** Accumulating two runs of rules one after the other is accumulating their concatenation. */
  lemma {:induction false} AccumulateSplit(acc: map<Path, Mask>, xs: seq<Rule>, ys: seq<Rule>)
    requires AllResolvable(xs) && AllResolvable(ys)
    ensures AllResolvable(xs + ys)
    ensures Accumulate(acc, xs + ys) == Accumulate(Accumulate(acc, xs), ys)
    decreases |ys|
  {
    assert forall j | 0 <= j < |xs + ys| :: (xs + ys)[j] == if j < |xs| then xs[j] else ys[j - |xs|];
    if ys == [] {
      assert xs + ys == xs;
    } else {
      var init := ys[..|ys| - 1];
      assert AllResolvable(init) by {
        assert forall j | 0 <= j < |init| :: init[j] == ys[j];
      }
      AccumulateSplit(acc, xs, init);
      assert (xs + ys)[..|xs + ys| - 1] == xs + init;
    }
  }

  /** The table depends on the order the rules are read in: a rule read after a rule below it
      does not reach the path below. */
  lemma AccumulateOrderMatters()
    ensures var a := Some("a");
            var ab := Some("a/b");
            && Accumulate(map[], [(ab, Mask(1)), (a, Mask(2))]) == map[ab := Mask(1), a := Mask(2)]
            && Accumulate(map[], [(a, Mask(2)), (ab, Mask(1))]) == map[a := Mask(2), ab := Mask(3)]
  {
    var a := Some("a");
    var ab := Some("a/b");
    assert LastDelimiter("a/b") == 1;
    assert "a/b"[..1] == "a";
    var first := [(ab, Mask(1)), (a, Mask(2))];
    assert first[..1][..0] == [];
    assert Accumulate(map[], first[..1]) == AddRule(map[], (ab, Mask(1)));
    assert Resolve(a, {ab}) == None;
    var second := [(a, Mask(2)), (ab, Mask(1))];
    assert second[..1][..0] == [];
    assert Accumulate(map[], second[..1]) == AddRule(map[], (a, Mask(2)));
    assert Resolve(ab, {a}) == a;
  }

  /** The paths whose listeners a refresh calls: the nearest surviving ancestor of every
      removed path, and every path that is new or whose value changed. */
  function Changed(previous: map<Path, Mask>, updated: map<Path, Mask>): set<Path>
    requires forall p | p in previous :: Resolvable(p)
  {
    (set p | p in previous && p !in updated :: Resolve(p, updated.Keys))
    + (set p | p in updated && (p !in previous || previous[p] != updated[p]))
  }

  /** A changed path is a path of the new table or the null path; a refresh that changes
      nothing reports nothing. */
  lemma ChangedSpec(previous: map<Path, Mask>, updated: map<Path, Mask>)
    requires forall p | p in previous :: Resolvable(p)
    ensures Changed(previous, updated) <= updated.Keys + {None}
    ensures previous == updated ==> Changed(previous, updated) == {}
    ensures forall p | p in previous && p !in updated ::
      Resolve(p, updated.Keys) in Changed(previous, updated)
  {
    forall c | c in Changed(previous, updated)
      ensures c in updated.Keys + {None}
    {
      if c !in updated || c.Some? {
        if c !in updated {
          var p :| p in previous && p !in updated && Resolve(p, updated.Keys) == c;
        }
      }
    }
  }

  /** mNearestAncestors after a refresh: every listened path under its nearest ancestor in the
      new table, when it has one. */
  function NearestTable(listened: set<Path>, keys: set<Path>): (t: set<(Path, Path)>)
    requires forall p | p in listened :: Resolvable(p)
  {
    set p | p in listened && Resolve(p, keys).Some? :: (Resolve(p, keys), p)
  }

  /** Every entry pairs a listened path with the longest path of the table at or above it; a
      listened path lies under no entry only when no path of the table is at or above it. */
  lemma NearestTableSpec(listened: set<Path>, keys: set<Path>)
    requires forall p | p in listened :: Resolvable(p)
    ensures forall e | e in NearestTable(listened, keys) ::
      e.1 in listened && e.0 in keys && e.0.Some? && AtOrAbove(e.0, e.1)
    ensures forall p, q | p in listened && q in keys && q.Some? && AtOrAbove(q, p) ::
      exists e | e in NearestTable(listened, keys) :: e.1 == p
  {
    forall p, q | p in listened && q in keys && q.Some? && AtOrAbove(q, p)
      ensures exists e | e in NearestTable(listened, keys) :: e.1 == p
    {
      NearestAncestorSpec(p, keys);
      assert Resolve(p, keys).Some?;
      assert (Resolve(p, keys), p) in NearestTable(listened, keys);
    }
  }

  /** Whether the null path is among the keys does not change where a path resolves. */
  lemma ResolveIgnoresNull(p: Path, keys: set<Path>, keys': set<Path>)
    requires Resolvable(p)
    requires forall s :: Some(s) in keys <==> Some(s) in keys'
    ensures NearestAncestor(p, keys') == Ok(Resolve(p, keys))
  {
    ResolveAgrees(p, keys);
    if p.Some? {
      NearestNonNull(p.value, keys, keys');
    }
  }

  /** Listening to one more path adds its routing entry, when it resolves to a path. */
  lemma NearestTableAdd(listened: set<Path>, keys: set<Path>, p: Path)
    requires (forall q | q in listened :: Resolvable(q)) && Resolvable(p)
    ensures NearestTable(listened + {p}, keys) ==
      NearestTable(listened, keys) + (if Resolve(p, keys).Some? then {(Resolve(p, keys), p)} else {})
  {
  }

  /** A path no longer listened to loses its routing entry, and no other entry goes. */
  lemma NearestTableRemove(listened: set<Path>, keys: set<Path>, p: Path)
    requires (forall q | q in listened :: Resolvable(q)) && Resolvable(p)
    ensures NearestTable(listened - {p}, keys) == NearestTable(listened, keys) - {(Resolve(p, keys), p)}
  {
  }

  /** The calls a refresh makes: every listener of a path routed to a changed path of the new
      table receives that path's new value. */
  function Notified(changed: set<Path>, updated: map<Path, Mask>, nearest: set<(Path, Path)>,
                    listeners: set<(Path, nat)>): set<(nat, Mask)>
  {
    set e, f | e in nearest && f in listeners && e.0 in changed && e.0 in updated && e.1 == f.0 ::
      (f.1, updated[e.0])
  }

  /** Notifying one more changed path adds the calls for the listeners routed to it, and none
      for a path outside the new table. */
  lemma NotifiedAdd(changed: set<Path>, p: Path, updated: map<Path, Mask>, nearest: set<(Path, Path)>,
                    listeners: set<(Path, nat)>)
    ensures Notified(changed + {p}, updated, nearest, listeners) ==
      Notified(changed, updated, nearest, listeners)
      + (if p in updated then set f | f in listeners && (p, f.0) in nearest :: (f.1, updated[p]) else {})
  {
    if p in updated {
      var extra := set f | f in listeners && (p, f.0) in nearest :: (f.1, updated[p]);
      forall c | c in extra
        ensures c in Notified(changed + {p}, updated, nearest, listeners)
      {
        var f :| f in listeners && (p, f.0) in nearest && c == (f.1, updated[p]);
        var e := (p, f.0);
        assert e in nearest && e.0 in changed + {p} && e.0 in updated && e.1 == f.0;
      }
    }
  }
}
