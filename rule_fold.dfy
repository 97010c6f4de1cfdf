/** The inner loop of refreshPermissions: the rules of one blessing's tree folded, in the
    tree iterator's order, into the permission table being built. */
module RuleFold {
  import opened Wrappers
  import opened Paths
  import opened Masks
  import opened PermissionNodes
  import opened NodeStructure
  import opened NodeIteration
  import opened PermissionCache
  import Utils

  /** The rules a blessing's iterator yields: every node of its tree, read as its path and
      its effective mask. */
  function RulesOf(n: Node): set<Rule> {
    set x | x in Sub(n) :: (x.path, Eff(x))
  }

  /** The inner loop of refreshPermissions: every rule of one tree, read in the tree
      iterator's order, folded into the table being built. */
  method AccumulateTree(acc: map<Path, Mask>, ghost rules: seq<Rule>, root: Tree)
    returns (acc': map<Path, Mask>, ghost rules': seq<Rule>)
    requires AllResolvable(rules) && acc == Accumulate(map[], rules)
    ensures AllResolvable(rules') && acc' == Accumulate(map[], rules')
    ensures Elements(rules') == Elements(rules) + RulesOf(root)
  {
    var visited := Iterate(root);
    acc' := acc;
    rules' := rules;
    for k := 0 to |visited|
      invariant AllResolvable(rules') && acc' == Accumulate(map[], rules')
      invariant Elements(rules') == Elements(rules) + RulesRead(visited, k)
    {
      var x := visited[k];
      SubWellFormed(root, x);
      var r := (x.path, Eff(x));
      AccumulateSnoc(rules', r);
      acc' := AccumulateRule(acc', r);
      ElementsAppend(rules', [r]);
      ElementsOne(r);
      RulesReadStep(visited, k);
      rules' := rules' + [r];
    }
    RulesReadAll(root, visited);
  }

  /** The rules read from the first `k` nodes the iterator yielded. */
  function RulesRead(visited: seq<Node>, k: nat): set<Rule>
    requires k <= |visited|
  {
    set j | 0 <= j < k :: (visited[j].path, Eff(visited[j]))
  }

  lemma RulesReadStep(visited: seq<Node>, k: nat)
    requires k < |visited|
    ensures RulesRead(visited, k + 1) == RulesRead(visited, k) + {(visited[k].path, Eff(visited[k]))}
  {
  }

  /** Reading all the nodes the iterator yielded reads the tree's rules. */
  lemma RulesReadAll(root: Node, visited: seq<Node>)
    requires forall x :: x in visited <==> x in Sub(root)
    ensures RulesRead(visited, |visited|) == RulesOf(root)
  {
    forall x | x in Sub(root)
      ensures (x.path, Eff(x)) in RulesRead(visited, |visited|)
    {
      var j :| 0 <= j < |visited| && visited[j] == x;
    }
  }

  /** The body of the inner loop of refreshPermissions: the rule's path takes the value
      of its nearest ancestor in the table, ORed with its own and with the rule's flags. */
  method AccumulateRule(acc: map<Path, Mask>, r: Rule) returns (acc': map<Path, Mask>)
    requires Resolvable(r.0)
    ensures acc' == AddRule(acc, r)
  {
    var nearestAncestor := Utils.GetNearestCommonAncestor(r.0, acc.Keys);
    ResolveAgrees(r.0, acc.Keys);
    var current := if nearestAncestor.value in acc then acc[nearestAncestor.value] else NONE;
    if r.0 in acc {
      current := Or(current, acc[r.0]);
    }
    acc' := acc[r.0 := Or(current, r.1)];
  }
}
