/** The iterator of a rule subtree (`Permission.iterator`): an explicit stack that starts
    with the subtree's root; each step pops a node, pushes all of its children, and yields the
    popped node. The bookkeeping is done on paths, which name the nodes of a well-formed tree
    uniquely. */
module NodeIteration {
  import opened Wrappers
  import opened Paths
  import opened PermissionNodes
  import opened NodeStructure

  /** The paths still to be yielded from the subtrees on a stack. */
  ghost function Pending(stack: seq<Node>): set<Path> {
    set i, p | 0 <= i < |stack| && p in PathsOf(stack[i]) :: p
  }

  /** The paths of the subtrees of the children under `keys`. */
  ghost function ChildPaths(n: Node, keys: set<string>): set<Path> {
    set k, p | k in keys && k in n.children && p in PathsOf(n.children[k]) :: p
  }

  lemma PendingPush(stack: seq<Node>, c: Node)
    ensures Pending(stack + [c]) == Pending(stack) + PathsOf(c)
  {
    var s := stack + [c];
    forall p | p in Pending(s)
      ensures p in Pending(stack) + PathsOf(c)
    {
      var i :| 0 <= i < |s| && p in PathsOf(s[i]);
      if i < |stack| {
        assert s[i] == stack[i];
      }
    }
    forall p | p in Pending(stack)
      ensures p in Pending(s)
    {
      var i :| 0 <= i < |stack| && p in PathsOf(stack[i]);
      assert s[i] == stack[i];
    }
    assert s[|stack|] == c;
  }

  /** The pending paths of a non-empty stack: those below its top entry and the top's own. */
  lemma PendingTop(stack: seq<Node>)
    requires |stack| > 0
    ensures Pending(stack) == Pending(stack[..|stack| - 1]) + PathsOf(stack[|stack| - 1])
  {
    var n := |stack| - 1;
    var base := stack[..n];
    forall p | p in Pending(stack)
      ensures p in Pending(base) + PathsOf(stack[n])
    {
      var i :| 0 <= i < |stack| && p in PathsOf(stack[i]);
      if i < n {
        assert base[i] == stack[i];
      }
    }
    forall p | p in Pending(base)
      ensures p in Pending(stack)
    {
      var i :| 0 <= i < n && p in PathsOf(base[i]);
      assert base[i] == stack[i];
    }
  }

  lemma ChildPathsAdd(n: Node, keys: set<string>, k: string)
    requires k in n.children
    ensures ChildPaths(n, keys + {k}) == ChildPaths(n, keys) + PathsOf(n.children[k])
  {
  }

  /** Every path of a well-formed subtree lies at or below the subtree's root. */
  lemma PathsBelow(n: Node, p: Path)
    requires WellFormed(n) && p in PathsOf(n)
    ensures AtOrAbove(n.path, p)
  {
    PathsOfSub(n);
    var x :| x in Sub(n) && x.path == p;
    SubBelow(n, x);
  }

  /** All the children together hold the subtree's paths without the root's. */
  lemma ChildPathsAll(n: Node)
    requires WellFormed(n)
    ensures ChildPaths(n, n.children.Keys) == PathsOf(n) - {n.path}
  {
    forall p | p in ChildPaths(n, n.children.Keys)
      ensures p != n.path
    {
      var k :| k in n.children && p in PathsOf(n.children[k]);
      PathsBelow(n.children[k], p);
      ChildPathBelow(n.path, k);
      if p == n.path {
        AtOrAboveAntisymmetric(n.path, n.children[k].path);
      }
    }
  }

  /** A path lying at or below none of the first `m` entries of a stack is not pending from
      them. */
  lemma NotPending(stack: seq<Node>, m: nat, p: Path)
    requires m <= |stack|
    requires forall j | 0 <= j < m :: WellFormed(stack[j]) && !AtOrAbove(stack[j].path, p)
    ensures p !in Pending(stack[..m])
  {
    if p in Pending(stack[..m]) {
      var i :| 0 <= i < m && p in PathsOf(stack[..m][i]);
      PathsBelow(stack[i], p);
    }
  }

  /** Pushes every child of `node`, in some order, onto the stack; `order` is the order of
      their keys. */
  method PushChildren(stack: seq<Node>, node: Node) returns (pushed: seq<Node>, ghost order: seq<string>)
    ensures |pushed| == |stack| + |order| && pushed[..|stack|] == stack
    ensures forall i | 0 <= i < |order| :: order[i] in node.children && pushed[|stack| + i] == node.children[order[i]]
    ensures forall i, j | 0 <= i < j < |order| :: order[i] != order[j]
    ensures Pending(pushed) == Pending(stack) + ChildPaths(node, node.children.Keys)
  {
    pushed := stack;
    var keys := node.children.Keys;
    ghost var done: set<string> := {};
    order := [];
    while keys != {}
      invariant done + keys == node.children.Keys && done !! keys
      invariant |pushed| == |stack| + |order| && pushed[..|stack|] == stack
      invariant forall i | 0 <= i < |order| :: order[i] in done && pushed[|stack| + i] == node.children[order[i]]
      invariant forall i, j | 0 <= i < j < |order| :: order[i] != order[j]
      invariant Pending(pushed) == Pending(stack) + ChildPaths(node, done)
      decreases keys
    {
      var k :| k in keys;
      PendingPush(pushed, node.children[k]);
      ChildPathsAdd(node, done, k);
      pushed := pushed + [node.children[k]];
      keys := keys - {k};
      done := done + {k};
      order := order + [k];
    }
  }

  /** The entries pushed under distinct keys are children of `node`, pairwise unrelated. */
  lemma PushedChildren(root: Tree, base: seq<Node>, node: Node, pushed: seq<Node>, order: seq<string>)
    requires node in Sub(root)
    requires |pushed| == |base| + |order|
    requires forall i | 0 <= i < |order| :: order[i] in node.children && pushed[|base| + i] == node.children[order[i]]
    requires forall i, j | 0 <= i < j < |order| :: order[i] != order[j]
    ensures forall i | |base| <= i < |pushed| :: pushed[i] in Sub(node) && Above(node.path, pushed[i].path)
    ensures forall i, j | |base| <= i < |pushed| && |base| <= j < |pushed| && i != j ::
      !AtOrAbove(pushed[i].path, pushed[j].path)
  {
    SubWellFormed(root, node);
    forall i | |base| <= i < |pushed|
      ensures pushed[i] in Sub(node) && Above(node.path, pushed[i].path)
    {
      ChildInSub(node, order[i - |base|]);
      ChildPathBelow(node.path, order[i - |base|]);
    }
    forall i, j | |base| <= i < |pushed| && |base| <= j < |pushed| && i != j
      ensures !AtOrAbove(pushed[i].path, pushed[j].path)
    {
      SiblingsUnrelated(node.path, order[i - |base|], order[j - |base|]);
    }
  }

  lemma ReplacedTop(stack: seq<Node>, pushed: seq<Node>)
    requires |stack| > 0
    requires |pushed| >= |stack| - 1 && pushed[..|stack| - 1] == stack[..|stack| - 1]
    requires forall i | |stack| - 1 <= i < |pushed| ::
      pushed[i] in Sub(stack[|stack| - 1]) && Above(stack[|stack| - 1].path, pushed[i].path)
    requires forall i, j | |stack| - 1 <= i < |pushed| && |stack| - 1 <= j < |pushed| && i != j ::
      !AtOrAbove(pushed[i].path, pushed[j].path)
    ensures Replaced(stack, pushed)
  {
  }

  /** All the children of the top of the stack together hold its subtree's paths without its
      own. */
  lemma PushedPaths(root: Tree, stack: seq<Node>, pushed: seq<Node>)
    requires |stack| > 0 && stack[|stack| - 1] in Sub(root)
    requires Pending(pushed) ==
      Pending(stack[..|stack| - 1]) + ChildPaths(stack[|stack| - 1], stack[|stack| - 1].children.Keys)
    ensures Pending(pushed) ==
      Pending(stack[..|stack| - 1]) + (PathsOf(stack[|stack| - 1]) - {stack[|stack| - 1].path})
  {
    SubWellFormed(root, stack[|stack| - 1]);
    ChildPathsAll(stack[|stack| - 1]);
  }

  /** Everything on the stack and everything yielded is a node of the tree. */
  ghost predicate InTree(root: Tree, visited: seq<Node>, stack: seq<Node>) {
    && (forall i | 0 <= i < |stack| :: stack[i] in Sub(root))
    && (forall i | 0 <= i < |visited| :: visited[i] in Sub(root))
  }

  /** The yielded paths and the pending ones partition the tree's paths. */
  ghost predicate Partition(root: Tree, seen: set<Path>, stack: seq<Node>) {
    PathsOf(root) == seen + Pending(stack) && seen !! Pending(stack)
  }

  /** No entry of the stack lies at or above another one. */
  ghost predicate Unrelated(stack: seq<Node>) {
    forall i, j | 0 <= i < |stack| && 0 <= j < |stack| && i != j :: !AtOrAbove(stack[i].path, stack[j].path)
  }

  /** No entry of the stack lies at or above a yielded path. */
  ghost predicate Unseen(stack: seq<Node>, seen: set<Path>) {
    forall i, v | 0 <= i < |stack| && v in seen :: !AtOrAbove(stack[i].path, v)
  }

  /** `seen` holds the yielded paths; they are distinct, and no node was yielded after one of
      its descendants. */
  ghost predicate Yielded(visited: seq<Node>, seen: set<Path>) {
    && seen == (set i | 0 <= i < |visited| :: visited[i].path)
    && (forall i, j | 0 <= i < j < |visited| :: visited[i].path != visited[j].path)
    && (forall i, j | 0 <= j <= i < |visited| :: !Above(visited[i].path, visited[j].path))
  }

  /** The state of the iteration: the nodes yielded so far and the stack of subtrees still to
      yield. */
  ghost predicate IterationState(root: Tree, visited: seq<Node>, seen: set<Path>, stack: seq<Node>) {
    && InTree(root, visited, stack)
    && Partition(root, seen, stack)
    && Unrelated(stack)
    && Unseen(stack, seen)
    && Yielded(visited, seen)
  }

  /** `pushed` is `stack` with its top replaced by subtrees strictly below it that are
      pairwise unrelated. */
  ghost predicate Replaced(stack: seq<Node>, pushed: seq<Node>)
    requires |stack| > 0
  {
    var n := |stack| - 1;
    && |pushed| >= n && pushed[..n] == stack[..n]
    && (forall i | n <= i < |pushed| :: pushed[i] in Sub(stack[n]) && Above(stack[n].path, pushed[i].path))
    && (forall i, j | n <= i < |pushed| && n <= j < |pushed| && i != j :: !AtOrAbove(pushed[i].path, pushed[j].path))
  }

  lemma IterationStart(root: Tree)
    ensures IterationState(root, [], {}, [root])
  {
    PendingPush([], root);
    assert [] + [root] == [root];
  }

  lemma StackWellFormed(root: Tree, stack: seq<Node>)
    requires forall i | 0 <= i < |stack| :: stack[i] in Sub(root)
    ensures forall i | 0 <= i < |stack| :: WellFormed(stack[i])
  {
    forall i | 0 <= i < |stack|
      ensures WellFormed(stack[i])
    {
      SubWellFormed(root, stack[i]);
    }
  }

  /** Replacing the top of the stack by its subtree without its own path removes exactly
      that path from the pending ones. */
  lemma PendingPop(stack: seq<Node>, pushed: seq<Node>)
    requires |stack| > 0 && forall i | 0 <= i < |stack| :: WellFormed(stack[i])
    requires Unrelated(stack)
    requires Pending(pushed) ==
      Pending(stack[..|stack| - 1]) + (PathsOf(stack[|stack| - 1]) - {stack[|stack| - 1].path})
    ensures stack[|stack| - 1].path in Pending(stack)
    ensures Pending(pushed) == Pending(stack) - {stack[|stack| - 1].path}
  {
    var node := stack[|stack| - 1];
    PendingTop(stack);
    assert node.path in PathsOf(node);
    NotPending(stack, |stack| - 1, node.path);
  }

  /** The popped node's path moves from the pending paths to the yielded ones. */
  lemma StepPartition(root: Tree, seen: set<Path>, stack: seq<Node>, pushed: seq<Node>)
    requires |stack| > 0 && forall i | 0 <= i < |stack| :: WellFormed(stack[i])
    requires Partition(root, seen, stack) && Unrelated(stack)
    requires Pending(pushed) ==
      Pending(stack[..|stack| - 1]) + (PathsOf(stack[|stack| - 1]) - {stack[|stack| - 1].path})
    ensures stack[|stack| - 1].path !in seen
    ensures Partition(root, seen + {stack[|stack| - 1].path}, pushed)
    ensures Pending(pushed) < Pending(stack)
  {
    PendingPop(stack, pushed);
    MoveToSeen(PathsOf(root), seen, Pending(stack), Pending(pushed), stack[|stack| - 1].path);
  }

  /** Moving one pending path to the yielded ones keeps the partition, and leaves strictly
      fewer paths pending. */
  lemma MoveToSeen(all: set<Path>, seen: set<Path>, pending: set<Path>, pending': set<Path>, p: Path)
    requires all == seen + pending && seen !! pending
    requires p in pending && pending' == pending - {p}
    ensures p !in seen
    ensures all == (seen + {p}) + pending' && (seen + {p}) !! pending'
    ensures pending' < pending
  {
  }

  /** The pushed entries are nodes of the tree, and so is the yielded one. */
  lemma StepInTree(root: Tree, visited: seq<Node>, stack: seq<Node>, pushed: seq<Node>)
    requires |stack| > 0 && InTree(root, visited, stack) && Replaced(stack, pushed)
    ensures InTree(root, visited + [stack[|stack| - 1]], pushed)
  {
    var n := |stack| - 1;
    forall i | 0 <= i < |pushed|
      ensures pushed[i] in Sub(root)
    {
      if i < n {
        assert pushed[i] == pushed[..n][i] == stack[i];
      } else {
        SubTransitive(root, stack[n], pushed[i]);
      }
    }
  }

  /** No entry of the new stack lies at or above another one. */
  lemma StepUnrelated(stack: seq<Node>, pushed: seq<Node>)
    requires |stack| > 0 && Unrelated(stack) && Replaced(stack, pushed)
    ensures Unrelated(pushed)
  {
    var n := |stack| - 1;
    var node := stack[n];
    forall i, j | 0 <= i < |pushed| && 0 <= j < |pushed| && i != j
      ensures !AtOrAbove(pushed[i].path, pushed[j].path)
    {
      if i < n {
        assert pushed[i] == pushed[..n][i] == stack[i];
      }
      if j < n {
        assert pushed[j] == pushed[..n][j] == stack[j];
      }
      if i < n && n <= j {
        BelowUnrelated(stack[i].path, node.path, pushed[j].path);
      } else if n <= i && j < n {
        BelowNotAbove(node.path, pushed[i].path, stack[j].path);
      }
    }
  }

  /** No entry of the new stack lies at or above a yielded path, the popped node's included. */
  lemma StepUnseen(stack: seq<Node>, seen: set<Path>, pushed: seq<Node>)
    requires |stack| > 0 && Unrelated(stack) && Unseen(stack, seen) && Replaced(stack, pushed)
    ensures Unseen(pushed, seen + {stack[|stack| - 1].path})
  {
    var n := |stack| - 1;
    var node := stack[n];
    forall i, v | 0 <= i < |pushed| && v in seen + {node.path}
      ensures !AtOrAbove(pushed[i].path, v)
    {
      if i < n {
        assert pushed[i] == pushed[..n][i] == stack[i];
      } else if v == node.path {
        assert !AtOrAbove(pushed[i].path, node.path);
      } else {
        BelowNotAbove(node.path, pushed[i].path, v);
      }
    }
  }

  /** Yielding a node that lies above no yielded path and was not yielded before keeps the
      yielded paths distinct and in order. */
  lemma StepYield(visited: seq<Node>, seen: set<Path>, node: Node)
    requires Yielded(visited, seen)
    requires node.path !in seen && forall v | v in seen :: !AtOrAbove(node.path, v)
    ensures Yielded(visited + [node], seen + {node.path})
  {
    var visited' := visited + [node];
    forall p | p in seen + {node.path}
      ensures p in (set i | 0 <= i < |visited'| :: visited'[i].path)
    {
      if p == node.path {
        assert visited'[|visited|].path == p;
      } else {
        var i :| 0 <= i < |visited| && visited[i].path == p;
        assert visited'[i].path == p;
      }
    }
    forall i, j | 0 <= j <= i < |visited'|
      ensures !Above(visited'[i].path, visited'[j].path)
    {
      if i == |visited| && j < i {
        assert visited[j].path in seen;
      }
    }
    forall i, j | 0 <= i < j < |visited'|
      ensures visited'[i].path != visited'[j].path
    {
      if j == |visited| {
        assert visited[i].path in seen;
      }
    }
  }

  /** Replacing the top of the stack by subtrees below it and yielding it keeps the state. */
  lemma IterationStep(root: Tree, visited: seq<Node>, seen: set<Path>, stack: seq<Node>, pushed: seq<Node>)
    requires IterationState(root, visited, seen, stack) && |stack| > 0 && Replaced(stack, pushed)
    requires Pending(pushed) ==
      Pending(stack[..|stack| - 1]) + (PathsOf(stack[|stack| - 1]) - {stack[|stack| - 1].path})
    ensures IterationState(root, visited + [stack[|stack| - 1]], seen + {stack[|stack| - 1].path}, pushed)
    ensures Pending(pushed) < Pending(stack)
  {
    var node := stack[|stack| - 1];
    StackWellFormed(root, stack);
    StepPartition(root, seen, stack, pushed);
    StepInTree(root, visited, stack, pushed);
    StepUnrelated(stack, pushed);
    StepUnseen(stack, seen, pushed);
    assert forall v | v in seen :: !AtOrAbove(node.path, v);
    StepYield(visited, seen, node);
  }

  /** Once the stack is empty, every node of the tree has been yielded exactly once, and
      ancestors before their descendants. */
  lemma IterationDone(root: Tree, visited: seq<Node>, seen: set<Path>)
    requires IterationState(root, visited, seen, [])
    ensures forall x :: x in visited <==> x in Sub(root)
    ensures forall i, j | 0 <= i < j < |visited| :: visited[i].path != visited[j].path
    ensures forall i, j | 0 <= i < |visited| && 0 <= j < |visited| && Above(visited[i].path, visited[j].path) ::
      i < j
  {
    PathsOfSub(root);
    forall x | x in Sub(root)
      ensures x in visited
    {
      assert x.path in seen;
      var i :| 0 <= i < |visited| && visited[i].path == x.path;
      PathsUnique(root, visited[i], x);
    }
  }

  /** Pushing the children of the top in place of the top replaces it by pairwise unrelated
      subtrees strictly below it, holding its subtree's paths without its own. */
  lemma Prepare(root: Tree, stack: seq<Node>, pushed: seq<Node>, order: seq<string>)
    requires |stack| > 0 && stack[|stack| - 1] in Sub(root)
    requires |pushed| == |stack[..|stack| - 1]| + |order| && pushed[..|stack[..|stack| - 1]|] == stack[..|stack| - 1]
    requires forall i | 0 <= i < |order| ::
      order[i] in stack[|stack| - 1].children && pushed[|stack[..|stack| - 1]| + i] == stack[|stack| - 1].children[order[i]]
    requires forall i, j | 0 <= i < j < |order| :: order[i] != order[j]
    requires Pending(pushed) ==
      Pending(stack[..|stack| - 1]) + ChildPaths(stack[|stack| - 1], stack[|stack| - 1].children.Keys)
    ensures Replaced(stack, pushed)
    ensures Pending(pushed) ==
      Pending(stack[..|stack| - 1]) + (PathsOf(stack[|stack| - 1]) - {stack[|stack| - 1].path})
  {
    PushedChildren(root, stack[..|stack| - 1], stack[|stack| - 1], pushed, order);
    ReplacedTop(stack, pushed);
    PushedPaths(root, stack, pushed);
  }

  /** Yielding the top of the stack after its children were pushed keeps the state. */
  lemma Advance(root: Tree, visited: seq<Node>, seen: set<Path>, stack: seq<Node>, pushed: seq<Node>, order: seq<string>)
    requires IterationState(root, visited, seen, stack) && |stack| > 0
    requires |pushed| == |stack[..|stack| - 1]| + |order| && pushed[..|stack[..|stack| - 1]|] == stack[..|stack| - 1]
    requires forall i | 0 <= i < |order| ::
      order[i] in stack[|stack| - 1].children && pushed[|stack[..|stack| - 1]| + i] == stack[|stack| - 1].children[order[i]]
    requires forall i, j | 0 <= i < j < |order| :: order[i] != order[j]
    requires Pending(pushed) ==
      Pending(stack[..|stack| - 1]) + ChildPaths(stack[|stack| - 1], stack[|stack| - 1].children.Keys)
    ensures IterationState(root, visited + [stack[|stack| - 1]], seen + {stack[|stack| - 1].path}, pushed)
    ensures Pending(pushed) < Pending(stack)
  {
    Prepare(root, stack, pushed, order);
    IterationStep(root, visited, seen, stack, pushed);
  }

  /** One step of the iterator: pops the top of the stack, pushes its children and yields it. */
  method Step(ghost root: Tree, visited: seq<Node>, ghost seen: set<Path>, stack: seq<Node>)
    returns (visited': seq<Node>, ghost seen': set<Path>, stack': seq<Node>)
    requires IterationState(root, visited, seen, stack) && |stack| > 0
    ensures IterationState(root, visited', seen', stack')
    ensures Pending(stack') < Pending(stack)
    ensures visited' == visited + [stack[|stack| - 1]]
  {
    var node := stack[|stack| - 1];
    ghost var order;
    stack', order := PushChildren(stack[..|stack| - 1], node);
    Advance(root, visited, seen, stack, stack', order);
    visited' := visited + [node];
    seen' := seen + {node.path};
  }

  /** The nodes come out each exactly once, all nodes of the subtree and nothing else, and no
      node comes out after one of its descendants. */
  method Iterate(root: Node) returns (visited: seq<Node>)
    requires WellFormed(root)
    ensures forall x :: x in visited <==> x in Sub(root)
    ensures forall i, j | 0 <= i < j < |visited| :: visited[i].path != visited[j].path
    ensures forall i, j | 0 <= i < |visited| && 0 <= j < |visited| && Above(visited[i].path, visited[j].path) ::
      i < j
  {
    ghost var tree: Tree := root;
    var stack := [root];
    visited := [];
    ghost var seen: set<Path> := {};
    IterationStart(tree);
    while |stack| > 0
      invariant IterationState(tree, visited, seen, stack)
      decreases Pending(stack)
    {
      visited, seen, stack := Step(tree, visited, seen, stack);
    }
    IterationDone(tree, visited, seen);
  }
}
