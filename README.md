# Capability propagation in baku's `permissions` module

Baku lets devices share parts of a synchronised store with each other. What a device may do at
a store path is a bit mask of capabilities (`FLAG_WRITE` = 1, `FLAG_READ` = 2) held over a tree
of paths. A capability reaches a device through a chain of *blessings*:

- A **blessing** is a grant from a source device to a target device. Its rules form a
  `PermissionTree`. The tree is linked to the tree of the blessing the source itself received,
  so a grant can never give more than its source holds. A blessing tells its listeners when it
  changes and when it is revoked. These listeners are a child blessing's parent link, the
  manager's refresh listener and outside observers.
- The **`PermissionManager`** of a device works over all blessings:
  - It keeps every blessing, indexed by id and by (source, target).
  - It folds the rules of the blessings the device *received* into a permission cache (a map
    from paths to masks).
  - It routes each listened path to its nearest cached ancestor and calls the path's
    listeners when the value there changes.
  - It gates remote permission requests on the cache. A request is offered to the local request
    listeners only when the device holds every flag the request asks for.
  - It issues, cancels and grants this device's own requests.
- **`SyncTextDiff`** is one operation of the text synchroniser: insert, delete or equal. It
  carries its text and the device it came from.

The model is split into modules that follow that structure:

- **`Paths`**:
  - the slash-separated path algebra;
  - nearest-common-ancestor resolution;
  - the wildcard expansion that request listeners are matched with.
- **`Masks`**: the 32-bit capability masks.
- **`PermissionNodes`, `NodeStructure`, `NodeIteration` and `NodeMerge`**: the nodes of a
  permission tree (`Blessing.Permission`) as values, with their mutators, their iterator and the
  merge of two trees.
- **`PermissionTrees`**: `PermissionTree` as a class whose root and path index change in place.
  Its lookup walks up the chain of linked trees.
- **`PermissionCache` and `RuleFold`**: the rule accumulation and change detection of
  `refreshPermissions`, and the routing table.
- **`Requests`**: request records, request builders and the path expansion of `getAllPaths`.
- **`Delegation`**: `Blessing` and `PermissionManager` as classes:
  - their registries;
  - the listener cascade through the blessing chain;
  - revocation;
  - the request flow.
- **`SyncTextDiffs`**: `SyncTextDiff` as a class.
- **`Utils`**: `Utils.getNearestCommonAncestor`.

Outside parts appear in the model as follows:

- The device's store (Firebase) appears only as ghost logs of the writes a blessing makes.
- Listeners are opaque values, and the calls made on them are ghost event logs.
- The decision of an outside request listener is the oracle `accepts`, fixed when the manager is
  built.
- `getPermissionAt`, the per-blessing lookup that `getCombinedPermission` folds, is the function
  `permissionAt`, also fixed when the manager is built.

## Model

| member | source | states |
|---|---|---|
| Utils.GetNearestCommonAncestor | permissions/app/src/main/java/examples/baku/io/permissions/util/Utils.java:50-67 | the result is exactly `NearestAncestor(path, ancestors)`, whose meaning `Paths.NearestAncestorSpec` states; the manager's private copy (PermissionManager.java:189-205) is the same lookup |
| Paths.NearestAncestorSpec | permissions/app/src/main/java/examples/baku/io/permissions/util/Utils.java:50-66 | a null or listed path is its own answer; the lookup throws exactly for an unlisted path with a leading `/`; otherwise the answer is at or above the path, is listed (or null) and is at least as long as every listed proper ancestor |
| Paths.NearestSound | permissions/app/src/main/java/examples/baku/io/permissions/util/Utils.java:57-63 | a non-null answer of the cutting loop is a listed proper ancestor of the path |
| Paths.NearestLongest | permissions/app/src/main/java/examples/baku/io/permissions/util/Utils.java:58-66 | when some listed path is a proper ancestor, the loop finds one at least as long, so null is returned only when no listed ancestor exists |
| Paths.RelativeNeverThrows | permissions/app/src/main/java/examples/baku/io/permissions/util/Utils.java:54-56 | the "must be relative" exception never fires for a relative path |
| Paths.NearestAncestorMonotone | permissions/app/src/main/java/examples/baku/io/permissions/util/Utils.java:50-67 | the nearest ancestor of an ancestor of `p` lies at or above the nearest ancestor of `p` |
| Paths.WildcardMatchesDescendants | permissions/app/src/main/java/examples/baku/io/permissions/PermissionManager.java:354-365 | a wildcard `q/*` is among the expansions of a path exactly when `q` is a proper ancestor of the path (or the path is that wildcard itself) |
| Requests.GetAllPaths | permissions/app/src/main/java/examples/baku/io/permissions/PermissionManager.java:354-365 | the cutting loop returns exactly the reference expansion `AllPaths`: the path, `*`, and the wildcard under every delimiter |
| Requests.AllPathsSpec | permissions/app/src/main/java/examples/baku/io/permissions/PermissionManager.java:354-365 | a string is an expansion of a path iff it is the path, the global wildcard, or `q/*` for a proper ancestor `q` |
| Requests.MatchingSpec | permissions/app/src/main/java/examples/baku/io/permissions/PermissionManager.java:328-336 | a request listener registered at `w` is offered a request for `path` iff `w` is `path`, `*`, or the wildcard of an ancestor of `path` |
| Requests.RequestsForSpec | permissions/app/src/main/java/examples/baku/io/permissions/PermissionManager.java:208-216 | getRequests(path) returns a stored request iff `path` is the request's path, `*`, or the wildcard of an ancestor of it |
| Requests.Subscribers | permissions/app/src/main/java/examples/baku/io/permissions/PermissionManager.java:321-322 | a listener is subscribed to a request id iff the subscription table holds that pair |
| PermissionNodes.Eff | permissions/app/src/main/java/examples/baku/io/permissions/Blessing.java:413-415 | a node's effective mask contains both its own and its inherited flags |
| PermissionNodes.Hydrate | permissions/app/src/main/java/examples/baku/io/permissions/Blessing.java:322-340 | a node read from a record takes the path and inherited mask given, its own mask from the record (0 when absent), and one child per record child whose key does not start with `_` |
| PermissionNodes.HydrateConsistent | permissions/app/src/main/java/examples/baku/io/permissions/Blessing.java:322-340 | every child built from a record sits at `parent/key`, inherits its parent's effective mask, and no reserved key survives |
| PermissionNodes.HydrateWellFormed | permissions/app/src/main/java/examples/baku/io/permissions/Blessing.java:322-340 | a record with valid keys read at a relative path yields a well-formed tree |
| PermissionNodes.SetInherited | permissions/app/src/main/java/examples/baku/io/permissions/Blessing.java:363-370 | the node takes the new inherited mask and keeps its key, path, own mask and children; an unchanged mask leaves the node as it was |
| PermissionNodes.SetInheritedRules | permissions/app/src/main/java/examples/baku/io/permissions/Blessing.java:363-370 | setInherited changes no own mask, key or path anywhere in the subtree |
| PermissionNodes.SetInheritedConsistent | permissions/app/src/main/java/examples/baku/io/permissions/Blessing.java:363-370 | on a consistent subtree, every child again inherits its parent's effective mask afterwards |
| PermissionNodes.SetInheritedIsRelink | permissions/app/src/main/java/examples/baku/io/permissions/Blessing.java:363-370 | on a consistent subtree, the early-exit recursion equals an unconditional re-propagation of masks down the whole subtree |
| PermissionNodes.AddPermissions | permissions/app/src/main/java/examples/baku/io/permissions/Blessing.java:354-361 | the own mask becomes the old one ORed with the added flags, and nothing is lost; adding the node's own mask again changes nothing |
| PermissionNodes.AddPermissionsConsistent | permissions/app/src/main/java/examples/baku/io/permissions/Blessing.java:354-361 | children keep their rules, and a consistent node stays consistent (the children see the new effective mask) |
| PermissionNodes.RemovePermissions | permissions/app/src/main/java/examples/baku/io/permissions/Blessing.java:372-377 | the removed flags are gone from the own mask and every other flag is kept |
| PermissionNodes.RemovePermissionsConsistent | permissions/app/src/main/java/examples/baku/io/permissions/Blessing.java:372-377 | children keep their rules, and a consistent node stays consistent |
| PermissionNodes.CheckPermissions | permissions/app/src/main/java/examples/baku/io/permissions/Blessing.java:379-384 | the own mask becomes exactly the intersection of the old mask and the reference |
| PermissionNodes.CheckPermissionsConsistent | permissions/app/src/main/java/examples/baku/io/permissions/Blessing.java:379-384 | children keep their rules, and a consistent node stays consistent |
| PermissionNodes.ClipOwn | permissions/app/src/main/java/examples/baku/io/permissions/Blessing.java:387-389 | each own mask is cut down to what the reference tree grants at the node's path |
| PermissionNodes.ClipOwnBounded | permissions/app/src/main/java/examples/baku/io/permissions/Blessing.java:387-389 | the iteration over the tree keeps its shape, bounds every own mask by the reference and only removes flags |
| PermissionNodes.CheckAgainstAsWritten | permissions/app/src/main/java/examples/baku/io/permissions/Blessing.java:386-391 | checkPermissions(tree) as written: paths and keys are kept and the root's inherited mask is cut by the reference |
| PermissionNodes.CheckAgainst | permissions/app/src/main/java/examples/baku/io/permissions/Blessing.java:386-391 | the corrected checkPermissions(tree): the same cut, with the inherited masks re-propagated |
| PermissionNodes.CheckAgainstBounded | permissions/app/src/main/java/examples/baku/io/permissions/Blessing.java:386-391 | the corrected check keeps the shape, leaves the tree consistent, bounds every own mask by the reference and, for a reference that grows down the tree, bounds every effective mask |
| PermissionNodes.CheckAgainstAsWrittenBounded | permissions/app/src/main/java/examples/baku/io/permissions/Blessing.java:386-391 | the check as written keeps the shape of the tree and bounds every own mask by the reference; it promises nothing about the inherited masks below the root |
| PermissionNodes.CheckAgainstAsWrittenLeavesStaleMask | permissions/app/src/main/java/examples/baku/io/permissions/Blessing.java:386-391 | for a concrete consistent tree, the check as written leaves a child inheriting a flag the reference does not grant |
| PermissionNodes.ChildAsWritten | permissions/app/src/main/java/examples/baku/io/permissions/Blessing.java:394-411 | for a single-segment path, child(path) returns a child iff one exists under that key, and returns that child |
| PermissionNodes.ChildAt | permissions/app/src/main/java/examples/baku/io/permissions/Blessing.java:394-411 | the intended walk: any node found lies in the subtree at `parent/path`, and for one segment it agrees with child(path) |
| PermissionNodes.ChildAsWrittenIgnoresSegments | permissions/app/src/main/java/examples/baku/io/permissions/Blessing.java:395-408 | for `a/b` the written loop never runs, so child returns the node itself while the intended walk returns `a/b` |
| NodeStructure.PathsUnique | permissions/app/src/main/java/examples/baku/io/permissions/Blessing.java:494-499 | in a well-formed tree no two nodes share a path, so indexing by path loses nothing |
| NodeStructure.IndexedRules | permissions/app/src/main/java/examples/baku/io/permissions/Blessing.java:494-503 | every entry of the path index is a node of the tree stored under its own path |
| NodeStructure.EffGrowsDown | permissions/app/src/main/java/examples/baku/io/permissions/Blessing.java:322-340 | in a consistent tree every node holds at least the effective flags of the root |
| NodeStructure.EffMonotone | permissions/app/src/main/java/examples/baku/io/permissions/Blessing.java:322-340 | effective masks only grow from a node to the nodes below it |
| NodeIteration.PushChildren | permissions/app/src/main/java/examples/baku/io/permissions/Blessing.java:435-437 | the children are pushed once each onto the stack, which keeps its old entries, and the pending paths grow by exactly the children's subtrees |
| NodeIteration.Step | permissions/app/src/main/java/examples/baku/io/permissions/Blessing.java:433-439 | one `next()` yields the top node and keeps the iteration invariant (partition into seen and pending, ancestors first), strictly shrinking what is pending |
| NodeIteration.Iterate | permissions/app/src/main/java/examples/baku/io/permissions/Blessing.java:419-446 | the stack iterator yields every node of the tree and nothing else, each path once, every ancestor before its descendants |
| NodeIteration.IterationDone | permissions/app/src/main/java/examples/baku/io/permissions/Blessing.java:419-446 | once the stack is empty the invariant gives the whole tree, without repetition, ancestors first |
| NodeMerge.Copy | permissions/app/src/main/java/examples/baku/io/permissions/Blessing.java:342-352 | the copy keeps key, path, masks and child keys |
| NodeMerge.CopyIsEqual | permissions/app/src/main/java/examples/baku/io/permissions/Blessing.java:342-352 | the deep copy equals its original |
| NodeMerge.MergeNode | permissions/app/src/main/java/examples/baku/io/permissions/Blessing.java:478-490 | a merge step keeps the local node's key, path and inherited mask, ORs in the foreign mask at that path, and ends with the union of both nodes' child keys |
| NodeMerge.MergePaths | permissions/app/src/main/java/examples/baku/io/permissions/Blessing.java:468-492 | the merged tree holds exactly the paths of both trees |
| NodeMerge.MergeRoots | permissions/app/src/main/java/examples/baku/io/permissions/Blessing.java:468-492 | merge(tree) as written on rule roots: the local root keeps its key, path and inherited mask, and its own mask gains the foreign tree's mask at the root path |
| NodeMerge.MergeRootsSpec | permissions/app/src/main/java/examples/baku/io/permissions/Blessing.java:468-492 | merge(tree) as written (the copy checked by checkPermissions(tree) as written) gives a well-formed tree with the paths of both that extends the local tree and grants nothing beyond local rules and the foreign masks; it is consistent only when the local tree and the checked copy are |
| NodeMerge.MergeAsWrittenEscalates | permissions/app/src/main/java/examples/baku/io/permissions/Blessing.java:468-492 | for a concrete consistent foreign tree whose masks are all 0, the merge as written yields an inconsistent tree granting flag 1 at `c/d`, while the intended merge stays consistent |
| NodeMerge.MergeRootsIntended | permissions/app/src/main/java/examples/baku/io/permissions/Blessing.java:468-492 | the intended merge on rule roots (the copy checked by the corrected check): the same root contract as `MergeRoots` |
| NodeMerge.MergeRootsIntendedSpec | permissions/app/src/main/java/examples/baku/io/permissions/Blessing.java:468-492 | the intended merge (copy checked by the corrected check) has the same properties and always keeps a consistent local tree consistent |
| NodeMerge.MergeExtends | permissions/app/src/main/java/examples/baku/io/permissions/Blessing.java:481 | no flag or node of the local tree is lost by the merge |
| NodeMerge.MergeConsistent | permissions/app/src/main/java/examples/baku/io/permissions/Blessing.java:482-489 | when the local node and the foreign copy are both consistent, grafted and merged children inherit their new parent's effective mask |
| NodeMerge.MergeWellFormed | permissions/app/src/main/java/examples/baku/io/permissions/Blessing.java:482-489 | grafted children keep their keys and sit at `parent/key` |
| NodeMerge.MergeGranted | permissions/app/src/main/java/examples/baku/io/permissions/Blessing.java:470-481 | every own mask after the merge lies within the local own mask ORed with the foreign tree's mask at that path |
| NodeMerge.SharedAtRoots | permissions/app/src/main/java/examples/baku/io/permissions/Blessing.java:475-476 | a foreign node is merged into the local node under the same key exactly when its path is already indexed locally |
| NodeMerge.CheckedShared | permissions/app/src/main/java/examples/baku/io/permissions/Blessing.java:470-476 | checking the foreign copy against the foreign tree's own masks (the corrected check) changes none of the paths the merge decides on |
| PermissionTrees.PermissionTree.Empty | permissions/app/src/main/java/examples/baku/io/permissions/Blessing.java:459-461 | a new tree holds only an empty root, indexed under the null path |
| PermissionTrees.PermissionTree.FromSnapshot | permissions/app/src/main/java/examples/baku/io/permissions/Blessing.java:455-457 | a tree read from a record has the record's nodes as its root (consistent, at the null path) and a valid index |
| PermissionTrees.PermissionTree.SetRoot | permissions/app/src/main/java/examples/baku/io/permissions/Blessing.java:463-466 | the root is replaced and the index then holds exactly the new tree's nodes by path |
| PermissionTrees.PermissionTree.UpdateRules | permissions/app/src/main/java/examples/baku/io/permissions/Blessing.java:494-499 | after the iteration the index holds exactly the tree's nodes, each under its own path |
| PermissionTrees.PermissionTree.Get | permissions/app/src/main/java/examples/baku/io/permissions/Blessing.java:501-503 | get(path) finds a node exactly for an indexed path, and it is the indexed node |
| PermissionTrees.PermissionTree.GetFindsNode | permissions/app/src/main/java/examples/baku/io/permissions/Blessing.java:501-503 | get(path) finds a node iff the tree has that path, and the node found is the tree's node there |
| PermissionTrees.PermissionTree.PermissionsAt | permissions/app/src/main/java/examples/baku/io/permissions/Blessing.java:505-514 | getPermissions only fails with the leading-delimiter error of the ancestor lookup |
| PermissionTrees.PermissionTree.GetPermissions | permissions/app/src/main/java/examples/baku/io/permissions/Blessing.java:505-514 | the method climbing the parent chain computes `PermissionsAt` |
| PermissionTrees.PermissionTree.PermissionsDefined | permissions/app/src/main/java/examples/baku/io/permissions/Blessing.java:505-508 | getPermissions fails iff the path has a leading `/` |
| PermissionTrees.PermissionTree.FallsBackToRoot | permissions/app/src/main/java/examples/baku/io/permissions/Blessing.java:506-508 | for an unparented tree, a path with no rule at or above it gets the root's effective mask |
| PermissionTrees.PermissionTree.ResolvesToRule | permissions/app/src/main/java/examples/baku/io/permissions/Blessing.java:506-507 | every relative path resolves to an indexed rule at or above it |
| PermissionTrees.PermissionTree.MaskTableExact | permissions/app/src/main/java/examples/baku/io/permissions/Blessing.java:481 | the mask table a merge reads holds, for every indexed path, exactly what getPermissions returns there |
| PermissionTrees.PermissionTree.Merge | permissions/app/src/main/java/examples/baku/io/permissions/Blessing.java:468-492 | merge(tree), with the copy checked as written, indexes the union of both trees' paths, keeps every local flag, grants nothing beyond the local rules and the foreign tree's masks, leaves the foreign tree untouched, and is consistent when the local tree and the checked copy are |
| PermissionTrees.PermissionTree.PermissionsMonotone | permissions/app/src/main/java/examples/baku/io/permissions/Blessing.java:505-514 | along a consistent chain, what is granted at a path is also granted at every path below it |
| PermissionTrees.PermissionTree.BoundedByParent | permissions/app/src/main/java/examples/baku/io/permissions/Blessing.java:510-512 | no escalation: a linked tree never grants more at a path than its parent tree grants there |
| PermissionTrees.PermissionTree.BoundedByAncestors | permissions/app/src/main/java/examples/baku/io/permissions/Blessing.java:505-514 | the same bound holds against every tree further up the blessing chain |
| PermissionCache.Resolve | permissions/app/src/main/java/examples/baku/io/permissions/PermissionManager.java:189-205 | the resolved path is a cached path (or null) at or above the path, and a cached path resolves to itself |
| PermissionCache.ResolveAgrees | permissions/app/src/main/java/examples/baku/io/permissions/PermissionManager.java:189-205 | on resolvable paths, resolution is exactly the manager's nearest-common-ancestor lookup |
| PermissionCache.Inherited | permissions/app/src/main/java/examples/baku/io/permissions/PermissionManager.java:99-103 | a rule's starting value keeps whatever the path already held |
| PermissionCache.AddRule | permissions/app/src/main/java/examples/baku/io/permissions/PermissionManager.java:98-105 | a rule changes only its own path, which then holds the rule's flags and everything it held before |
| PermissionCache.AccumulateKeys | permissions/app/src/main/java/examples/baku/io/permissions/PermissionManager.java:95-108 | the accumulated map holds exactly the paths of the rules read |
| PermissionCache.AccumulateGrows | permissions/app/src/main/java/examples/baku/io/permissions/PermissionManager.java:95-108 | later rules never remove a flag from a path |
| PermissionCache.AccumulateCovers | permissions/app/src/main/java/examples/baku/io/permissions/PermissionManager.java:95-108 | every rule's flags end up at its path |
| PermissionCache.AccumulateSplit | permissions/app/src/main/java/examples/baku/io/permissions/PermissionManager.java:95-108 | reading the rules of one blessing after another is one fold over their concatenation |
| PermissionCache.AccumulateOrderMatters | permissions/app/src/main/java/examples/baku/io/permissions/PermissionManager.java:95-108 | the result depends on the order rules are read in: a descendant read before its ancestor does not inherit the ancestor's flags |
| PermissionCache.ChangedSpec | permissions/app/src/main/java/examples/baku/io/permissions/PermissionManager.java:118-140 | the paths notified are new paths or the null path; a refresh that changes nothing notifies nothing; every removed path notifies its nearest surviving ancestor |
| PermissionCache.NearestTableSpec | permissions/app/src/main/java/examples/baku/io/permissions/PermissionManager.java:110-116 | the routing pairs a listened path with a cached path at or above it, and every listened path with a cached ancestor is routed |
| PermissionCache.NearestTableAdd | permissions/app/src/main/java/examples/baku/io/permissions/PermissionManager.java:428-437 | listening at one more path adds exactly its routing to its resolved ancestor, and nothing when that is null |
| PermissionCache.NearestTableRemove | permissions/app/src/main/java/examples/baku/io/permissions/PermissionManager.java:441-446 | no longer listening at a path drops exactly its routing entry |
| PermissionCache.NotifiedAdd | permissions/app/src/main/java/examples/baku/io/permissions/PermissionManager.java:141-158 | notifying one more changed path adds a call with the path's new value for every listener routed to it, and no call for a path outside the new table |
| RuleFold.AccumulateTree | permissions/app/src/main/java/examples/baku/io/permissions/PermissionManager.java:97-107 | the loop over one blessing's tree folds in exactly one rule (path, effective mask) per node |
| RuleFold.AccumulateRule | permissions/app/src/main/java/examples/baku/io/permissions/PermissionManager.java:98-105 | one loop body computes `AddRule` |
| Delegation.OfferEach | permissions/app/src/main/java/examples/baku/io/permissions/PermissionManager.java:321-327 | every subscribed listener is called once with the request, and exactly the decliners are collected |
| Delegation.OfferEachAt | permissions/app/src/main/java/examples/baku/io/permissions/PermissionManager.java:328-336 | every matching registration is called once with the request, and exactly the listeners that accept are collected |
| Delegation.DeliverRequest | permissions/app/src/main/java/examples/baku/io/permissions/PermissionManager.java:320-336 | subscribers are offered a request first and decliners are unsubscribed; with no subscriber, the matching listeners are offered it and those that accept are subscribed |
| Delegation.OfferedSubscribers | permissions/app/src/main/java/examples/baku/io/permissions/PermissionManager.java:320-336 | afterwards the subscribers of the request are the old subscribers that accepted, or else the matching listeners that accepted; other request ids keep their subscribers |
| Delegation.WithdrawEach | permissions/app/src/main/java/examples/baku/io/permissions/PermissionManager.java:346-349 | every subscribed listener is told once of the removal |
| Delegation.WithdrawRequest | permissions/app/src/main/java/examples/baku/io/permissions/PermissionManager.java:346-349 | the subscribers of the request are told of its removal and unsubscribed |
| Delegation.WithdrawnSubscribers | permissions/app/src/main/java/examples/baku/io/permissions/PermissionManager.java:346-349 | afterwards the request has no subscribers and every other subscription is kept |
| Delegation.OfferingDone | permissions/app/src/main/java/examples/baku/io/permissions/PermissionManager.java:456-468 | a new request listener is offered every stored request once, is subscribed to those it accepts, and the blessing table gains only blessings for the requesting sources |
| Delegation.RowAll | permissions/app/src/main/java/examples/baku/io/permissions/PermissionManager.java:479-483 | cancelling every path of a group leaves the other groups' requests and cancels exactly the group's builders |
| Delegation.RemoveRow | permissions/app/src/main/java/examples/baku/io/permissions/PermissionManager.java:248-254 | the corrected table removal drops exactly one (row, column) entry and keeps the others |
| Delegation.RemoveRawRow | permissions/app/src/main/java/examples/baku/io/permissions/PermissionManager.java:251 | removal under the raw source as written: with a source exactly that entry goes; with a null source the table is unchanged; kept entries keep their values |
| Delegation.RootRowSurvivesRawRemoval | permissions/app/src/main/java/examples/baku/io/permissions/PermissionManager.java:251 | a removal keyed by the raw null source leaves a root blessing's `root` row in the table, while the corrected removal clears it |
| Delegation.RoutedCalls | permissions/app/src/main/java/examples/baku/io/permissions/PermissionManager.java:147-158 | calling the listeners routed to a changed path with its cached value makes exactly the calls the refresh promises |
| Delegation.RebuiltResolve | permissions/app/src/main/java/examples/baku/io/permissions/PermissionManager.java:110-116 | in a rebuilt cache, resolution against the cached paths equals resolution against the accumulated rule paths (the null path changes nothing) |
| Delegation.RebuiltListen | permissions/app/src/main/java/examples/baku/io/permissions/PermissionManager.java:428-437 | adding a listened path with its resolved routing keeps the cache rebuilt |
| Delegation.RebuiltUnlisten | permissions/app/src/main/java/examples/baku/io/permissions/PermissionManager.java:441-446 | removing a listened path with its routing keeps the cache rebuilt |
| Delegation.NotifyStep | permissions/app/src/main/java/examples/baku/io/permissions/PermissionManager.java:141-143 | one more notified path keeps the notification invariant, caching the null path's value when getPermission is first asked for it |
| Delegation.LinkCascade | permissions/app/src/main/java/examples/baku/io/permissions/Blessing.java:122-125 | a parent link's call is the cascade of the child blessing |
| Delegation.CalledAll | permissions/app/src/main/java/examples/baku/io/permissions/Blessing.java:184-188 | notifying every listener of a blessing reaches exactly the listeners of its whole subtree |
| Delegation.SiblingCascadesApart | permissions/app/src/main/java/examples/baku/io/permissions/Blessing.java:184-188 | the cascades of two sibling blessings reach disjoint subtrees, so no listener is called twice |
| Delegation.PrunedStaysOut | permissions/app/src/main/java/examples/baku/io/permissions/Blessing.java:225-231 | once a set of blessings is cut from their parents, no cascade that starts outside it reaches into it |
| Delegation.RevokedAlone | permissions/app/src/main/java/examples/baku/io/permissions/Blessing.java:225-235 | after a revoke, each blessing of the revoked subtree is cut off from every other |
| Delegation.RemovalTurn | permissions/app/src/main/java/examples/baku/io/permissions/Blessing.java:229-231 | one turn of the removal loop cuts the next child's subtree, which is untouched before its turn |
| Delegation.PrunedOne | permissions/app/src/main/java/examples/baku/io/permissions/Blessing.java:226-228 | detaching a blessing removes only its own link from its parent's listeners |
| Delegation.Blessing.DescendantOfChain | permissions/app/src/main/java/examples/baku/io/permissions/Blessing.java:287-295 | descendantOf(t) holds iff some blessing of the chain up to the root has target `t` |
| Delegation.Blessing.Init | permissions/app/src/main/java/examples/baku/io/permissions/Blessing.java:54-70 | a new blessing takes its id (given, or `source_target`), source and target, links to the blessing its source holds, and is registered |
| Delegation.Blessing.Create | permissions/app/src/main/java/examples/baku/io/permissions/Blessing.java:72-78 | create returns the blessing already stored for (source, target), changing nothing; otherwise a new blessing `source_target` is registered under that row |
| Delegation.Blessing.CreateRoot | permissions/app/src/main/java/examples/baku/io/permissions/Blessing.java:81-87 | a root blessing is stored under `root`; it has no source and no parent, and its id is its target |
| Delegation.Blessing.FromSnapshot | permissions/app/src/main/java/examples/baku/io/permissions/Blessing.java:89-100 | a blessing record is read once: the stored blessing for its row is returned, or a new one with the record's key, source and target is registered |
| Delegation.Blessing.Bless | permissions/app/src/main/java/examples/baku/io/permissions/Blessing.java:272-281 | an existing grant to `t` is returned unchanged; blessing a target already in the chain fails and changes nothing; otherwise a new blessing `id_t` from this one is registered |
| Delegation.Blessing.AddListener | permissions/app/src/main/java/examples/baku/io/permissions/Blessing.java:102-106 | the listener is added and called at once, with the cascade that call makes |
| Delegation.Blessing.Join | permissions/app/src/main/java/examples/baku/io/permissions/Blessing.java:103 | adding an outside listener keeps the registry ordered |
| Delegation.Blessing.AddListeners | permissions/app/src/main/java/examples/baku/io/permissions/Blessing.java:108-110 | the listeners are added, and the result says whether any was new |
| Delegation.Blessing.RemoveListener | permissions/app/src/main/java/examples/baku/io/permissions/Blessing.java:112-114 | only this blessing's listener set loses the listener; the result says whether it was there |
| Delegation.Blessing.RemoveListeners | permissions/app/src/main/java/examples/baku/io/permissions/Blessing.java:116-118 | the listeners are removed, and the result says whether any was there |
| Delegation.Blessing.NotifyListeners | permissions/app/src/main/java/examples/baku/io/permissions/Blessing.java:184-188 | every listener in the blessing's subtree is called, the observers' events are logged, and if the manager was reached its cache is rebuilt from the received rules |
| Delegation.Blessing.NotifyEach | permissions/app/src/main/java/examples/baku/io/permissions/Blessing.java:185-187 | the loop over the listeners accumulates exactly their cascades |
| Delegation.Blessing.Deliver | permissions/app/src/main/java/examples/baku/io/permissions/Blessing.java:121-125 | one call is the listener's own cascade: a parent link notifies the child blessing, the manager link refreshes, and an observer logs an update event |
| Delegation.Blessing.Revoke | permissions/app/src/main/java/examples/baku/io/permissions/Blessing.java:225-235 | the blessing and everything below it are cut from their parents, each removes its rules once, every listener any of them held is told once, and the rebuild inputs are unchanged |
| Delegation.Blessing.Detach | permissions/app/src/main/java/examples/baku/io/permissions/Blessing.java:226-228 | only the parent loses its link to this blessing |
| Delegation.Blessing.TellListeners | permissions/app/src/main/java/examples/baku/io/permissions/Blessing.java:229-231 | the removal loop tells every listener of this blessing |
| Delegation.Blessing.TellEach | permissions/app/src/main/java/examples/baku/io/permissions/Blessing.java:229-231 | each remaining listener is told, keeping the revocation invariant |
| Delegation.Blessing.RemovalLoopTurn | permissions/app/src/main/java/examples/baku/io/permissions/Blessing.java:230 | one loop turn keeps the revocation invariant with one more listener told |
| Delegation.Blessing.TellRemoval | permissions/app/src/main/java/examples/baku/io/permissions/Blessing.java:230 | telling a non-link listener of the removal changes no listener set and no write log |
| Delegation.Blessing.DeliverRemoval | permissions/app/src/main/java/examples/baku/io/permissions/Blessing.java:127-131 | a removal call cuts and revokes exactly the subtree reached through the listener |
| Delegation.Blessing.RevokeChild | permissions/app/src/main/java/examples/baku/io/permissions/Blessing.java:128-131 | the parent link's removal revokes the child blessing's whole subtree |
| Delegation.Blessing.RemoveRulesRecord | permissions/app/src/main/java/examples/baku/io/permissions/Blessing.java:233 | the final rules removal completes the revoke |
| Delegation.Blessing.SetPermissions | permissions/app/src/main/java/examples/baku/io/permissions/Blessing.java:207-211 | the local map and the store record both get the mask for the path |
| Delegation.Blessing.SetAllPermissions | permissions/app/src/main/java/examples/baku/io/permissions/Blessing.java:213-217 | every entry is put, with one rule write per path |
| Delegation.Blessing.SetEach | permissions/app/src/main/java/examples/baku/io/permissions/Blessing.java:214-216 | the loop writes each remaining path once |
| Delegation.Blessing.SetOne | permissions/app/src/main/java/examples/baku/io/permissions/Blessing.java:214-216 | one loop turn writes exactly one more path |
| Delegation.Blessing.ClearPermissions | permissions/app/src/main/java/examples/baku/io/permissions/Blessing.java:219-223 | the path's rule leaves the local map and the store record |
| Delegation.Blessing.RevokePermissions | permissions/app/src/main/java/examples/baku/io/permissions/Blessing.java:238-245 | the rules at or under the path are removed from the store record; the local map is not touched |
| Delegation.Blessing.OnDataChange | permissions/app/src/main/java/examples/baku/io/permissions/Blessing.java:258-264 | a missing record changes nothing; otherwise the blessing is synched, its tree becomes the record's rules (or empty), and its subtree is notified |
| Delegation.Blessing.Synch | permissions/app/src/main/java/examples/baku/io/permissions/Blessing.java:195-205 | the snapshot becomes the tree's root, fully indexed |
| Delegation.PermissionManager.constructor | permissions/app/src/main/java/examples/baku/io/permissions/PermissionManager.java:68-81 | a new manager holds only its root blessing, under `root` and its own id, with empty caches, listeners, requests and logs, and is refreshed |
| Delegation.PermissionManager.Start | permissions/app/src/main/java/examples/baku/io/permissions/PermissionManager.java:77-79 | the root blessing is created and indexed |
| Delegation.PermissionManager.InitRootBlessing | permissions/app/src/main/java/examples/baku/io/permissions/PermissionManager.java:87-89 | the root blessing for this device is the stored one, or a new one with no source and no parent whose id is the device id |
| Delegation.PermissionManager.Register | permissions/app/src/main/java/examples/baku/io/permissions/Blessing.java:54-70 | registration indexes the new blessing by id and by row, and links it to its parent |
| Delegation.PermissionManager.Enrol | permissions/app/src/main/java/examples/baku/io/permissions/Blessing.java:177-180 | a new blessing joins the registry, and only its parent gains a listener (its link) |
| Delegation.PermissionManager.GetBlessing | permissions/app/src/main/java/examples/baku/io/permissions/PermissionManager.java:242-246 | the lookup finds a blessing iff the (source or `root`, target) row holds one, and returns it |
| Delegation.PermissionManager.PutBlessing | permissions/app/src/main/java/examples/baku/io/permissions/PermissionManager.java:231-236 | the blessing is indexed by id and by row, and the previous occupant of the row is returned |
| Delegation.PermissionManager.RemoveBlessing | permissions/app/src/main/java/examples/baku/io/permissions/PermissionManager.java:248-254 | the id is dropped; if it was present, the table entry under its raw source and target is removed: a blessing with a source is no longer found by getBlessing(source, target), and a root blessing (null source) stays in its `root` row |
| Delegation.PermissionManager.ReceivedBlessings | permissions/app/src/main/java/examples/baku/io/permissions/PermissionManager.java:223-225 | the received blessings are exactly those stored in a row whose target is this device |
| Delegation.PermissionManager.GetCombinedPermission | permissions/app/src/main/java/examples/baku/io/permissions/PermissionManager.java:420-426 | the value is getPermissionAt folded from 0 over every blessing, in some enumeration of them |
| Delegation.PermissionManager.GetPermission | permissions/app/src/main/java/examples/baku/io/permissions/PermissionManager.java:412-418 | a cached path returns its cached value and changes nothing; otherwise the combined value is computed and cached |
| Delegation.PermissionManager.LookUp | permissions/app/src/main/java/examples/baku/io/permissions/PermissionManager.java:413-415 | the read side of getPermission: the cached value, or else the combined one |
| Delegation.PermissionManager.Remember | permissions/app/src/main/java/examples/baku/io/permissions/PermissionManager.java:416-417 | the value is cached only for a path not cached yet |
| Delegation.PermissionManager.CollectRules | permissions/app/src/main/java/examples/baku/io/permissions/PermissionManager.java:93-108 | the loop over the received blessings folds exactly their rules, in some order |
| Delegation.PermissionManager.CollectEach | permissions/app/src/main/java/examples/baku/io/permissions/PermissionManager.java:95-108 | the remaining received blessings are folded in |
| Delegation.PermissionManager.RouteListeners | permissions/app/src/main/java/examples/baku/io/permissions/PermissionManager.java:110-116 | the routing is rebuilt: every listened path goes to its nearest path of the new table |
| Delegation.PermissionManager.DropRemoved | permissions/app/src/main/java/examples/baku/io/permissions/PermissionManager.java:118-126 | removed paths leave the cache, and their nearest surviving ancestors are reported as changed |
| Delegation.PermissionManager.StoreUpdated | permissions/app/src/main/java/examples/baku/io/permissions/PermissionManager.java:128-140 | the cache becomes the new table, and exactly the new or changed paths are reported |
| Delegation.PermissionManager.NotifyChanged | permissions/app/src/main/java/examples/baku/io/permissions/PermissionManager.java:141-143 | listeners routed to a changed path are called with its new value; the log only grows |
| Delegation.PermissionManager.NotifyOne | permissions/app/src/main/java/examples/baku/io/permissions/PermissionManager.java:142 | one more changed path is notified |
| Delegation.PermissionManager.Rebuild | permissions/app/src/main/java/examples/baku/io/permissions/PermissionManager.java:110-143 | the cache holds the new table, the routing is rebuilt, and the calls logged are exactly those owed for the changed paths |
| Delegation.PermissionManager.RefreshPermissions | permissions/app/src/main/java/examples/baku/io/permissions/PermissionManager.java:92-144 | a refresh rebuilds the cache and the routing from the received rules, and logs exactly one call per (listener, changed routed path) with that path's new value |
| Delegation.PermissionManager.Refresh | permissions/app/src/main/java/examples/baku/io/permissions/PermissionManager.java:92-144 | a refresh leaves the manager refreshed and only appends calls |
| Delegation.PermissionManager.OnPermissionsChange | permissions/app/src/main/java/examples/baku/io/permissions/PermissionManager.java:147-158 | the listeners routed to the path are each called once with getPermission of the path |
| Delegation.PermissionManager.CallListeners | permissions/app/src/main/java/examples/baku/io/permissions/PermissionManager.java:152-154 | each target is called once with the value |
| Delegation.PermissionManager.OnBlessingChanged | permissions/app/src/main/java/examples/baku/io/permissions/PermissionManager.java:399-409 | the manager's blessing listener refreshes on an update and on a removal, and touches no listener set or write log |
| Delegation.PermissionManager.CascadeRefreshed | permissions/app/src/main/java/examples/baku/io/permissions/PermissionManager.java:399-409 | a cascade that reached the manager's listener leaves the cache rebuilt |
| Delegation.PermissionManager.OnBlessingAdded | permissions/app/src/main/java/examples/baku/io/permissions/PermissionManager.java:369-372 | an added blessing record is read once, gets the manager's listener, and the manager is refreshed |
| Delegation.PermissionManager.Watch | permissions/app/src/main/java/examples/baku/io/permissions/PermissionManager.java:371 | adding the manager's listener refreshes at once |
| Delegation.PermissionManager.ReceiveBlessing | permissions/app/src/main/java/examples/baku/io/permissions/PermissionManager.java:370 | the record's blessing is the stored one for its row, or a new one with the record's key, source and target |
| Delegation.PermissionManager.OnBlessingRecordRemoved | permissions/app/src/main/java/examples/baku/io/permissions/PermissionManager.java:379-386 | an unknown key changes nothing; a known blessing loses the manager's listener and the table entry under its raw source (a root blessing keeps its `root` row, so the refresh still reads its rules), and the manager is refreshed |
| Delegation.PermissionManager.DropBlessing | permissions/app/src/main/java/examples/baku/io/permissions/PermissionManager.java:380-384 | the key is dropped, and a present blessing loses the manager's listener and its raw-source table entry |
| Delegation.PermissionManager.Unindex | permissions/app/src/main/java/examples/baku/io/permissions/PermissionManager.java:380-383 | the id leaves the index and the table entry under the raw source and target is removed, which for a root blessing removes nothing |
| Delegation.PermissionManager.CallObserver | permissions/app/src/main/java/examples/baku/io/permissions/Blessing.java:185-187 | an outside observer's call logs exactly its event |
| Delegation.PermissionManager.Bless | permissions/app/src/main/java/examples/baku/io/permissions/PermissionManager.java:258-260 | blessing fails iff the target is this device with no grant stored yet; an existing grant is returned unchanged, and a new one `id_target` is registered otherwise |
| Delegation.PermissionManager.OnRequestUpdated | permissions/app/src/main/java/examples/baku/io/permissions/PermissionManager.java:304-339 | a missing record, a record without a path and one from this device change nothing; otherwise getPermission of the path gates the request: lacking a flag it is dropped, and holding them all it is stored and offered |
| Delegation.PermissionManager.Admit | permissions/app/src/main/java/examples/baku/io/permissions/PermissionManager.java:313-315 | the gate: unless the value holds every flag asked for, nothing but the cache changes |
| Delegation.PermissionManager.Offer | permissions/app/src/main/java/examples/baku/io/permissions/PermissionManager.java:317-337 | an admitted request is stored and delivered to its subscribers or matching listeners |
| Delegation.PermissionManager.OfferTo | permissions/app/src/main/java/examples/baku/io/permissions/PermissionManager.java:321-336 | the listener calls carry the blessing granted to the request's source |
| Delegation.PermissionManager.StoreRequest | permissions/app/src/main/java/examples/baku/io/permissions/PermissionManager.java:319 | the request is stored under its id |
| Delegation.PermissionManager.OnRequestRemoved | permissions/app/src/main/java/examples/baku/io/permissions/PermissionManager.java:341-351 | the key is dropped; a record without a value is the null-dereference error; a record from this device changes nothing else; otherwise the subscribers are told and unsubscribed |
| Delegation.PermissionManager.Withdraw | permissions/app/src/main/java/examples/baku/io/permissions/PermissionManager.java:346-349 | the subscribers of a request are told of its removal with the source's blessing |
| Delegation.PermissionManager.DropRequest | permissions/app/src/main/java/examples/baku/io/permissions/PermissionManager.java:342 | the removed key leaves the requests |
| Delegation.PermissionManager.BlessSource | permissions/app/src/main/java/examples/baku/io/permissions/PermissionManager.java:323 | bless(source) yields the blessing stored for (this device, source), adding at most that row |
| Delegation.PermissionManager.AddOnRequestListener | permissions/app/src/main/java/examples/baku/io/permissions/PermissionManager.java:456-468 | the listener is registered and offered every stored request once, subscribed to those it accepts, with blessings only for the requesting sources |
| Delegation.PermissionManager.OfferAllStored | permissions/app/src/main/java/examples/baku/io/permissions/PermissionManager.java:458-466 | the loop over the stored requests offers each one once |
| Delegation.PermissionManager.OfferStored | permissions/app/src/main/java/examples/baku/io/permissions/PermissionManager.java:458-466 | the remaining stored requests are offered |
| Delegation.PermissionManager.OfferOne | permissions/app/src/main/java/examples/baku/io/permissions/PermissionManager.java:459-465 | one loop turn offers exactly one more stored request |
| Delegation.PermissionManager.AddPermissionEventListener | permissions/app/src/main/java/examples/baku/io/permissions/PermissionManager.java:428-439 | the listener is registered; resolving its path fails iff the lookup throws; on success it is routed to its nearest cached path (if any) and called once with that path's value, or FLAG_DEFAULT |
| Delegation.PermissionManager.RemovePermissionEventListener | permissions/app/src/main/java/examples/baku/io/permissions/PermissionManager.java:441-446 | the listener is unregistered, and the path's routing entry is dropped even when another listener still listens there |
| Delegation.PermissionManager.RemoveOnRequestListener | permissions/app/src/main/java/examples/baku/io/permissions/PermissionManager.java:449-454 | the listener loses its registration and every subscription |
| Delegation.PermissionManager.GetRequests | permissions/app/src/main/java/examples/baku/io/permissions/PermissionManager.java:208-216 | the loop returns exactly the stored requests whose path expands to the given path |
| Delegation.PermissionManager.FinishRequest | permissions/app/src/main/java/examples/baku/io/permissions/PermissionManager.java:293-296 | the request's id is recorded as finished |
| Delegation.PermissionManager.GrantRequest | permissions/app/src/main/java/examples/baku/io/permissions/PermissionManager.java:298-302 | granting fails iff the requester is this device with no grant yet; otherwise the blessing for the requester gets the mask at the path (locally and in the store), the request is finished, and no other blessing changes |
| Delegation.PermissionManager.BlessGrantee | permissions/app/src/main/java/examples/baku/io/permissions/PermissionManager.java:299 | the grant blessing is the stored one, or a new empty one recorded in the store |
| Delegation.PermissionManager.Request | permissions/app/src/main/java/examples/baku/io/permissions/PermissionManager.java:470-477 | a (group, path) pair keeps its first builder; a new pair gets a builder for this device |
| Delegation.PermissionManager.CancelRequest | permissions/app/src/main/java/examples/baku/io/permissions/PermissionManager.java:485-490 | the pair's builder, if any, is removed and cancelled |
| Delegation.PermissionManager.CancelRequests | permissions/app/src/main/java/examples/baku/io/permissions/PermissionManager.java:479-483 | the group's builders are all cancelled once each, and other groups keep theirs |
| Delegation.PermissionManager.CancelEach | permissions/app/src/main/java/examples/baku/io/permissions/PermissionManager.java:480-482 | the remaining paths of the group are cancelled |
| SyncTextDiffs.OperationCode | permissions/app/src/main/java/examples/baku/io/permissions/synchronization/SyncTextDiff.java:74-88 | each diff operation maps to one of the three codes: delete to DELETE, insert to INSERT, and equal to EQUAL |
| SyncTextDiffs.OperationCodeInjective | permissions/app/src/main/java/examples/baku/io/permissions/synchronization/SyncTextDiff.java:10-12 | distinct operations get distinct codes |
| SyncTextDiffs.SyncTextDiff.Empty | permissions/app/src/main/java/examples/baku/io/permissions/synchronization/SyncTextDiff.java:18-19 | an empty diff has no text, no source and operation 0 |
| SyncTextDiffs.SyncTextDiff.constructor | permissions/app/src/main/java/examples/baku/io/permissions/synchronization/SyncTextDiff.java:21-25 | the diff holds the given text, operation and source |
| SyncTextDiffs.SyncTextDiff.SetSource | permissions/app/src/main/java/examples/baku/io/permissions/synchronization/SyncTextDiff.java:31-33 | only the source is set |
| SyncTextDiffs.SyncTextDiff.SetText | permissions/app/src/main/java/examples/baku/io/permissions/synchronization/SyncTextDiff.java:40-42 | only the text is set |
| SyncTextDiffs.SyncTextDiff.SetOperation | permissions/app/src/main/java/examples/baku/io/permissions/synchronization/SyncTextDiff.java:48-50 | only the operation is set |
| SyncTextDiffs.SyncTextDiff.Length | permissions/app/src/main/java/examples/baku/io/permissions/synchronization/SyncTextDiff.java:52-54 | the length is the text's length, 0 for no text |
| SyncTextDiffs.SyncTextDiff.Compatible | permissions/app/src/main/java/examples/baku/io/permissions/synchronization/SyncTextDiff.java:56-58 | two diffs are compatible iff they share operation and source |
| SyncTextDiffs.SyncTextDiff.CompatibleWith | permissions/app/src/main/java/examples/baku/io/permissions/synchronization/SyncTextDiff.java:60-63 | compatible iff the operation matches and the sources are equal, a null source matching only a null source |
| SyncTextDiffs.CompatibleReflexive | permissions/app/src/main/java/examples/baku/io/permissions/synchronization/SyncTextDiff.java:56-63 | every diff is compatible with itself |
| SyncTextDiffs.CompatibleSymmetric | permissions/app/src/main/java/examples/baku/io/permissions/synchronization/SyncTextDiff.java:56-63 | compatibility is symmetric |
| SyncTextDiffs.CompatibleTransitive | permissions/app/src/main/java/examples/baku/io/permissions/synchronization/SyncTextDiff.java:56-63 | compatibility is transitive, so compatible diffs form classes |
| SyncTextDiffs.SyncTextDiff.FromDiff | permissions/app/src/main/java/examples/baku/io/permissions/synchronization/SyncTextDiff.java:74-88 | a diff from the diff library keeps its text, takes the source, and gets the code of its operation |
| SyncTextDiffs.SyncTextDiff.Split | permissions/app/src/main/java/examples/baku/io/permissions/synchronization/SyncTextDiff.java:65-72 | a diff without text is the NullPointerException and a cut outside the text the index exception, both leaving `diff` unchanged; otherwise the split-off head has length `start`, head and remainder concatenate to the old text, and both keep the source and operation |

## Left out

- Firebase reads, writes and listeners are not modelled as I/O. A blessing records its writes in
  a ghost log (`StoreWrite`), and the store's callbacks become the methods that handle them
  (`OnDataChange`, `OnBlessingAdded`, `OnBlessingRecordRemoved`, `OnRequestUpdated`,
  `OnRequestRemoved`).
- The asynchronous fetch of a missing parent blessing in `setSource` (Blessing.java:160-176) is
  left out. The parent is taken from the manager's index when the blessing is built, so the
  parent tree link is fixed for the blessing's lifetime.
- `join`, the store listeners the constructor attaches, and `grantedBlessingListener` are left
  out. They only forward store events to the handlers above.
- Java `HashMap`/`HashSet` iteration orders are not modelled. Every loop over one is
  nondeterministic, and its contract holds for any order. Where the order matters (the rule
  fold), `PermissionCache.AccumulateOrderMatters` shows it. Loops that change state are written
  as recursion over the part not yet visited: `NotifyEach`, `TellEach`, `SetEach`, `OfferStored`,
  `CancelEach` and `CollectEach`.
- NodeMerge.MergeNode: merge's breadth-first queue order is not modelled. The merge is
  structural recursion, because the subtrees it visits are disjoint and their steps commute.
- Permission nodes are values, not objects. A node shared between a tree and its path index is
  not an alias, so a change to a node appears through `SetRoot` or `UpdateRules`.
- Delegation.PermissionManager.Offer: the blessing `bless(source)` is obtained once per request
  rather than once per listener call. Every later call returns the same stored blessing.
- Listener reentrancy is not modelled: a listener that changes the manager from inside a
  callback. The outside listeners' answers are the oracle `accepts`. Their calls are ghost
  event logs.
- Delegation.Blessing.AddListener: requires the listener not to be a parent link. Parent links
  are only added when a blessing is registered (`Enrol`).
- Delegation.PermissionManager.RefreshPermissions: requires `KeysResolvable()`, that no cached
  or listened path starts with `/`. The manager's lookup would throw on such a path in the
  middle of a refresh; the model does not follow that exception. `NotifyListeners`, `Revoke`,
  `OnDataChange`, `OnBlessingAdded` and `OnBlessingRecordRemoved` carry the same requirement.
- Delegation.PermissionManager.OnRequestUpdated: getPermission's cache write is made together
  with the storing of the request. This gives the same final state as the source's order.
- Delegation.PermissionManager.OnRequestRemoved: the null dereference at
  PermissionManager.java:344 is the error `MissingValue`. The key's removal is modelled after the
  withdrawal, which reads no request, so the final state is the same as the source's.
- Requests.RequestBuilder: the `PermissionRequest` builder class is not part of this model, and
  a builder is a plain record. `Builder.cancel` is not part of this model either: a cancelled
  builder is recorded in the `cancelled` log. The store key a request is pushed under is a
  parameter of `Request`.
- Delegation.PermissionManager.GetCombinedPermission: `Blessing.getPermissionAt` is not part of
  this model. It is the function `permissionAt` the manager is built with.
- RuleFold.AccumulateTree: `Blessing.Rule` is not part of this model. A blessing's rules are its
  tree's nodes, each as (path, effective mask).
- The iterator of an unsynched blessing is null (Blessing.java:298-304). The refresh reads the rules of
  synched blessings only, which is the same effect.
- Delegation.PermissionManager.RemoveOnRequestListener: the source removes entries from the
  subscription table while iterating over it. The model gives the intended result and ignores
  the iterator invalidation.
- The text synchroniser beyond `SyncTextDiff`, the Android UI, `PermissionReference` and
  `FLAG_SUGGEST` are outside the capability core and are not part of this model.
- SyncTextDiffs.SyncTextDiff.Length: a text is a sequence of characters, while Java's
  `length()` counts UTF-16 code units. A text holding a character outside the Basic
  Multilingual Plane (an emoji) is one unit shorter here per such character.
- SyncTextDiffs.SyncTextDiff.Split: the split index counts characters, while Java's `substring`
  counts UTF-16 code units and can cut a surrogate pair in two; the model cannot split there.

## Findings

| source | as written | input that shows it | evidently intended | confidence | as-written member | corrected member |
|---|---|---|---|---|---|---|
| permissions/app/src/main/java/examples/baku/io/permissions/Blessing.java:386-391 | each node's own mask is cut by the reference, then `setInherited` is called on the root only; it stops at once when the root's inherited mask is unchanged, so the children keep masks inherited from the old root | a root with own mask 1 and a child `a` inheriting 1, checked against a reference that grants nothing | after the check, every node inherits its parent's new effective mask, so nothing exceeds the reference | not executed | PermissionNodes.CheckAgainstAsWrittenLeavesStaleMask | PermissionNodes.CheckAgainstBounded |
| permissions/app/src/main/java/examples/baku/io/permissions/Blessing.java:468-492 | merge checks the foreign copy with checkPermissions(tree) as written (line 471); a grafted subtree whose root already inherits the local parent's mask keeps the stale inherited masks the check left below it | a foreign root (no flags) with child `c` (own flag 1) and grandchild `c/d` (inheriting 1), whose masks are all 0, merged into a lone root | the merged tree is consistent and grants at `c/d` nothing the foreign tree does not grant | not executed | NodeMerge.MergeAsWrittenEscalates | NodeMerge.MergeRootsIntendedSpec |
| permissions/app/src/main/java/examples/baku/io/permissions/Blessing.java:394-411 | the loop runs `while indexOf(...) == -1`, which never holds for a path containing `/`, so `child` returns the node itself | `child("a/b")` on a root with child `a` holding child `b` | walk one segment at a time and return the node at `a/b` | not executed | PermissionNodes.ChildAsWrittenIgnoresSegments | PermissionNodes.ChildAt |
| permissions/app/src/main/java/examples/baku/io/permissions/PermissionManager.java:248-254 | the table entry is removed under the raw source; a root blessing's source is null, but it is stored under the `root` row, so its entry is never removed (onChildRemoved at line 383 does the same) | removing a root blessing whose (`root`, target) row is in the table | remove under the same row key `putBlessing` stores with | not executed | Delegation.RootRowSurvivesRawRemoval | Delegation.RemoveRow |
