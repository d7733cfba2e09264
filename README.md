# NuGet restore classification, resolver input ordering, and two value types

This Dafny project models four parts of the NuGet client.

- **`RestoreTargetGraph.Create`** (module `RestoreGraph`). One pass over the nodes of a resolved dependency graph splits them into four outputs:
  - the set of flattened graph items;
  - the set of remote matches to install;
  - the set of unresolved library ranges;
  - a name-keyed dictionary of conflict requests, turned into a list of `ResolverConflict`s.

  The pass also rewrites each resolved library's name in place, so it takes the casing that was requested. The loop is a `method` over a `seq` of nodes. Graph nodes, items, matches and library identities are classes, because the name rewrite writes through them. The loop is proved against `Classify`, a left fold of the per-node rule `Step`. The module `RestoreGraphProperties` proves what the outputs hold, in terms of the nodes.
- **`ResolverInputSort.TreeFlatten` and `TreeFlattenPriority`** (module `ResolverSort`). This is a selection sort over groups of candidate packages, one group per package id. Each round it picks the remaining id that is least by the key (priority, current parent count, number of parent sets containing the id, id ignoring case). It emits that group and removes the id from every parent set. The `while` loop (`Rounds`) mutates the `GroupedPackages` list, the parent map, the id list and the output. It is proved against `Flatten`, a recursive reference definition built from `Best` (the least remaining id). The module `ResolverSortProperties` proves:
  - what the parent sets and the third key mean;
  - that neither each choice nor the final order depends on the order of the input groups;
  - the worked example from the source's documentation.
- **`PackageDependency`** (module `Packaging`). A class with a fixed id and a version range that `SetIncludePrerelease` replaces in place. It also models the argument check, the `VersionRange.All` default, equality and hashing delegated to a comparer, and the `"<id> <range>"` string form.
- **`FrameworkRangeComparer`** (module `Frameworks`). Null-aware equality of framework ranges, plus a hash that folds the identifier (ignoring case), then `Min`, then `Max`.

Supporting modules:
- `Wrappers`: `Option` and `Result`.
- `Text`: ordinal and case-insensitive string comparison.
- `Versioning`: an opaque version type and the fields of `VersionRange`.

Where the documentation and the code disagree, the model follows the code:
- **Priority of targets.** `TreeFlattenPriority` tests targets first. An id that is both a target and installed therefore gets priority 1, and installed-only ids (priority 0) come before targets.
- **Third sort key.** It is ascending (`ThenBy`), although the comment above it speaks of the highest number first.
- **Conflict keys.** The dictionary uses the default comparer, so keys are case-sensitive.
- **Acceptable nodes.** An `Acceptable` node is not skipped once its conflict is recorded. It goes on through the unresolved, rename, install and flatten steps.
- **Dependency order.** The documentation promises that every package comes after the packages that depend on it. Priority overrides the dependency edges, so installed packages come before the packages that depend on them. The order holds when all ids share one priority and the dependencies have no cycle.

## Model

| member | source | states |
|---|---|---|
| RestoreGraph.Step | src/NuGet.Commands/RestoreGraph.cs:89-136 | The per-node rule. A skipped node (null node, null key, rejected) leaves every output unchanged. An acceptable node adds (parent identity, key) to the set under exactly its key name; the name is appended to the key list only when new. A resolved node adds its item to flattened, and adds its match to install iff the provider is remote. An unresolved node adds its key iff it is not a pure reference and has a range. |
| RestoreGraph.RecordConflict | src/NuGet.Commands/RestoreGraph.cs:98-108 | Recording a conflict adds the node's name to the dictionary's keys and adds the node's request to the set under that name and no other. The key list grows by at most that one name, keeping its old entries first, and it stays an exact, duplicate-free list of the keys. Install, flattened and unresolved are unchanged. |
| RestoreGraph.Visit | src/NuGet.Commands/RestoreGraph.cs:89-136 | The visitor body computes exactly `Step`. After it runs, a resolved node's library name equals the requested name, and nothing else is written. |
| RestoreGraph.RestoreTargetGraph.Create | src/NuGet.Commands/RestoreGraph.cs:74-148 | The graph's install, flattened and unresolved sets are those of the in-order fold over all nodes. Its conflict list is the dictionary, one entry per key in insertion order. Each library ends with the name given by the last resolved node that reaches it. The pass-through fields are stored unchanged. |
| RestoreGraph.RestoreTargetGraph.CreateForFramework | src/NuGet.Commands/RestoreGraph.cs:69-72 | The overload forwards to `Create` with no runtime identifier. It produces the same install, flattened and unresolved sets and the same conflict list, renames libraries the same way, and stores the pass-through fields. |
| RestoreGraph.ConflictList | src/NuGet.Commands/RestoreGraph.cs:139 | One `ResolverConflict` per recorded name, in order, each carrying that name's request set. |
| RestoreGraph.ClassifyKeysListedHolds | src/NuGet.Commands/RestoreGraph.cs:87-108 | After any pass, the key list holds each dictionary key exactly once and nothing else. |
| RestoreGraphProperties.SkippedNodeChangesNothing | src/NuGet.Commands/RestoreGraph.cs:91-96 | Visiting a null node, a node with a null key, or a rejected node changes none of the outputs. |
| RestoreGraphProperties.ConflictKeysExactly | src/NuGet.Commands/RestoreGraph.cs:87-108 | A name is a conflict key iff some acceptable node requested exactly that name. |
| RestoreGraphProperties.ConflictRequestsExactly | src/NuGet.Commands/RestoreGraph.cs:98-108 | The requests under a name are exactly the (parent identity, requested range) pairs of the acceptable nodes that requested that name. |
| RestoreGraphProperties.CaseSensitiveConflictKeys | src/NuGet.Commands/RestoreGraph.cs:87-108 | Two acceptable requests for "Foo" and "foo", which are equal ignoring case, give two separate conflicts, each with its own single request. |
| RestoreGraphProperties.ConflictListOnePerName | src/NuGet.Commands/RestoreGraph.cs:139 | No name appears twice in the conflict list, and every recorded name appears with exactly its accumulated request set. |
| RestoreGraphProperties.AcceptedAndAcceptableGiveOneConflict | src/NuGet.Commands/RestoreGraph.cs:98-108 | An accepted node followed by an acceptable node for the same name yields exactly one conflict, holding only the acceptable node's request. |
| RestoreGraphProperties.AcceptableNodeIsAlsoFlattened | src/NuGet.Commands/RestoreGraph.cs:98-135 | A resolved acceptable node both records its conflict request and has its item flattened. |
| RestoreGraphProperties.UnresolvedExactly | src/NuGet.Commands/RestoreGraph.cs:110-120 | A range is unresolved iff it is the key of an unresolved node that is not a pure reference and has a version range. |
| RestoreGraphProperties.UnresolvedNodeAddsNoItem | src/NuGet.Commands/RestoreGraph.cs:110-120 | Visiting an unresolved node adds nothing to install or flattened. |
| RestoreGraphProperties.FinalNameUntouched | src/NuGet.Commands/RestoreGraph.cs:122-126 | A library that no resolved node reaches keeps its name. |
| RestoreGraphProperties.FinalNameAgreed | src/NuGet.Commands/RestoreGraph.cs:122-126 | A library reached only by resolved nodes that request one name ends with that name. |
| RestoreGraphProperties.InstallExactly | src/NuGet.Commands/RestoreGraph.cs:128-133 | A match is in install iff it belongs to a resolved node and its provider is remote. |
| RestoreGraphProperties.InstallWithinFlattened | src/NuGet.Commands/RestoreGraph.cs:128-135 | Every install match belongs to some flattened item. |
| RestoreGraphProperties.FlattenedExactly | src/NuGet.Commands/RestoreGraph.cs:135 | Flattened is exactly the set of items of resolved nodes. |
| RestoreGraphProperties.ClassifyGrows | src/NuGet.Commands/RestoreGraph.cs:83-87 | The outputs only grow during the pass: the three sets, every request set, and the key list as a prefix. |
| RestoreGraphProperties.SameNodesSameClassification | src/NuGet.Commands/RestoreGraph.cs:83-136 | The three sets and the conflict dictionary depend only on which nodes are visited, not on their order or repetition. |
| ResolverSort.Priority | src/NuGet.Resolver/ResolverInputSort.cs:95-112 | 1 for a target (ignoring case) even when it is also installed; otherwise 0 if installed; otherwise 2. |
| ResolverSort.KeyOfIgnoresCase | src/NuGet.Resolver/ResolverInputSort.cs:67-71 | All four key selectors compare the id ignoring case: two ids get the same key iff they are equal ignoring case. |
| ResolverSort.KeyLeqTotal | src/NuGet.Resolver/ResolverInputSort.cs:67-71 | Any two sort keys are comparable. |
| ResolverSort.KeyLeqTransitive | src/NuGet.Resolver/ResolverInputSort.cs:67-71 | The key order is transitive. |
| ResolverSort.KeyLeqAntisymmetric | src/NuGet.Resolver/ResolverInputSort.cs:67-71 | Keys ordered both ways are equal, so the least key is unique. |
| ResolverSort.Best | src/NuGet.Resolver/ResolverInputSort.cs:67-74 | The chosen id is a remaining id whose key is at most every remaining id's key. |
| ResolverSort.SelectNext | src/NuGet.Resolver/ResolverInputSort.cs:67-71 | The ordering-and-first step computes the least remaining id `Best`. |
| ResolverSort.InitialParents | src/NuGet.Resolver/ResolverInputSort.cs:40-55 | The parent map has exactly one entry per group id, keyed by the id ignoring case, holding that id's parent set. |
| ResolverSort.CollectParents | src/NuGet.Resolver/ResolverInputSort.cs:44-52 | The inner loop collects exactly the parent set of one id. |
| ResolverSort.BuildParents | src/NuGet.Resolver/ResolverInputSort.cs:40-55 | Building the map fails with a duplicate-key error iff two ids are equal ignoring case; otherwise it yields `InitialParents`. |
| ResolverSort.FindGroup | src/NuGet.Resolver/ResolverInputSort.cs:74 | Returns the first group whose id equals the chosen id ignoring case. |
| ResolverSort.Placed | src/NuGet.Resolver/ResolverInputSort.cs:78-81 | Placing an id removes it from every parent set and keeps every key. |
| ResolverSort.Flatten | src/NuGet.Resolver/ResolverInputSort.cs:61-86 | The reference order is a permutation of the remaining ids. |
| ResolverSort.RemoveFirstMultiset | src/NuGet.Resolver/ResolverInputSort.cs:84-85 | Removing a group or an id takes exactly one occurrence out of the multiset. |
| ResolverSort.Round | src/NuGet.Resolver/ResolverInputSort.cs:61-86 | One loop round preserves the loop invariant: the output followed by the reference order of the rest is the full order; the output plus the remaining groups is the input multiset; remaining ids stay distinct and keyed. |
| ResolverSort.Rounds | src/NuGet.Resolver/ResolverInputSort.cs:61-86 | The loop empties `grouped` and emits a permutation of the input groups whose ids follow the reference order. |
| ResolverSort.TreeFlatten | src/NuGet.Resolver/ResolverInputSort.cs:27-89 | Succeeds iff every group is non-empty and the first ids are distinct ignoring case. On failure `grouped` is unchanged and the error says which. On success `grouped` is empty, the result is a permutation of the input groups, and its ids are in the order `Order` gives. |
| ResolverSortProperties.ParentsExactly | src/NuGet.Resolver/ResolverInputSort.cs:34-55 | Id j is a parent of id i iff i != j and some non-null dependency in group j names id i ignoring case. |
| ResolverSortProperties.NoSelfParent | src/NuGet.Resolver/ResolverInputSort.cs:46-52 | No id is its own parent, even when it depends on itself. |
| ResolverSortProperties.ContainingCountCountsDependencies | src/NuGet.Resolver/ResolverInputSort.cs:34-71 | Initially, the number of parent sets containing an id equals the number of other group ids it depends on. |
| ResolverSortProperties.PlacedShrinks | src/NuGet.Resolver/ResolverInputSort.cs:78-81 | After a placement, each parent set lacks the placed id and shrinks by exactly one when it held it. Parent counts never grow. |
| ResolverSortProperties.ContainingCountStable | src/NuGet.Resolver/ResolverInputSort.cs:67-81 | The third key of an unplaced id is unchanged by a placement. |
| ResolverSortProperties.ContainingCountOfPlaced | src/NuGet.Resolver/ResolverInputSort.cs:78-81 | After placement, no parent set contains the placed id. |
| ResolverSortProperties.BestHasLeastPriority | src/NuGet.Resolver/ResolverInputSort.cs:67-68 | The chosen id has the least priority among the remaining ids. |
| ResolverSortProperties.NoBlockedIdBeforeFreeOne | src/NuGet.Resolver/ResolverInputSort.cs:67-68 | When some id of the least priority has no parents left, the chosen id has no parents left. |
| ResolverSortProperties.BestIsUniqueLeast | src/NuGet.Resolver/ResolverInputSort.cs:67-74 | With ids distinct ignoring case, an id whose key is at most the key of every remaining id is the one chosen. |
| ResolverSortProperties.BestOrderIndependent | src/NuGet.Resolver/ResolverInputSort.cs:67-74 | The choice depends only on the multiset of remaining ids, not on their order. |
| ResolverSortProperties.FlattenOrderIndependent | src/NuGet.Resolver/ResolverInputSort.cs:61-86 | The whole output order depends only on the multiset of input ids, not on their order. |
| ResolverSortProperties.PermutedSortable | src/NuGet.Resolver/ResolverInputSort.cs:31-55 | A reordering of sortable groups is sortable: no group becomes empty and no two first ids become equal ignoring case. |
| ResolverSortProperties.InitialParentsByMembers | src/NuGet.Resolver/ResolverInputSort.cs:34-55 | The initial parent map depends only on which groups are present, not on their positions. |
| ResolverSortProperties.OrderPermutationInvariant | src/NuGet.Resolver/ResolverInputSort.cs:27-89 | Any reordering of sortable input groups is sortable and yields the same output id order. |
| ResolverSortProperties.SourceExists | src/NuGet.Resolver/ResolverInputSort.cs:39-55 | When the parent relation has no cycle, some remaining id has no parents left. |
| ResolverSortProperties.RoundKeepsRanked | src/NuGet.Resolver/ResolverInputSort.cs:76-86 | After a round, the remaining parents are still listed ids, still without a cycle, and the remaining ids still share one priority. |
| ResolverSortProperties.FlattenParentsFirst | src/NuGet.Resolver/ResolverInputSort.cs:61-86 | With one priority for every id and no cycle among the parents, each id is emitted after all of its parents. |
| ResolverSortProperties.OrderParentsFirst | src/NuGet.Resolver/ResolverInputSort.cs:10-89 | With one priority for every id and no dependency cycle between the groups, the output lists every group after all the groups that depend on it. |
| ResolverSortProperties.InstalledBeforeItsParent | src/NuGet.Resolver/ResolverInputSort.cs:67-71 | Priority overrides the dependency edges: an installed B is chosen first although A, which depends on it, is still waiting. |
| ResolverSortProperties.WorkedExample | src/NuGet.Resolver/ResolverInputSort.cs:11-25 | Groups A→B, B→D, C→D, D with equal priority are sortable, and they sort to A, B, C, D. |
| Packaging.Create | src/NuGet.Packaging.Core.Types/PackageDependency.cs:23-32 | Fails with `ArgumentException("id")` iff the id is null or empty. Otherwise it stores the id, and the given range or `VersionRange.All` when the range is null. |
| Packaging.CreateWithAllVersions | src/NuGet.Packaging.Core.Types/PackageDependency.cs:18-21 | The one-argument constructor makes the same id check, failing with an `ArgumentException` naming `id`, and otherwise stores `VersionRange.All`. |
| Packaging.WithIncludePrerelease | src/NuGet.Packaging.Core.Types/PackageDependency.cs:53-57 | The rebuilt range includes prerelease versions, and its min, max, inclusiveness and float are unchanged. |
| Packaging.PackageDependency.SetIncludePrerelease | src/NuGet.Packaging.Core.Types/PackageDependency.cs:53-57 | Replaces the range with the rebuilt one. The id is a constant and cannot change. |
| Packaging.WithIncludePrereleaseIdempotent | src/NuGet.Packaging.Core.Types/PackageDependency.cs:55-56 | Rebuilding twice equals rebuilding once. |
| Packaging.SetIncludePrereleaseTwice | src/NuGet.Packaging.Core.Types/PackageDependency.cs:53-57 | Two calls leave the same range as one call. |
| Packaging.PackageDependency.EqualsObject | src/NuGet.Packaging.Core.Types/PackageDependency.cs:64-74 | False for null or a non-`PackageDependency`; otherwise the same as typed `Equals`. |
| Packaging.EqualsImpliesSameHash | src/NuGet.Packaging.Core.Types/PackageDependency.cs:59-82 | `Equals` and `GetHashCode` delegate to one comparer, so equal dependencies hash equally whenever that comparer is consistent. |
| Packaging.SplitAtFirstSpace | src/NuGet.Packaging.Core.Types/PackageDependency.cs:87-90 | The inverse of the string form: the head has no space, and head, a space, and tail rebuild the input. |
| Packaging.ToStringSplits | src/NuGet.Packaging.Core.Types/PackageDependency.cs:87-90 | The string form of a dependency whose id has no space splits back into the id and the normalized range. |
| Frameworks.Equals | src/NuGet.Frameworks/comparers/FrameworkRangeComparer.cs:15-30 | True for the same reference (including two nulls); false when exactly one is null; otherwise true iff the identifiers are equal ignoring case and Min and Max are equal under the framework comparer. |
| Frameworks.GetHashCode | src/NuGet.Frameworks/comparers/FrameworkRangeComparer.cs:34-37 | The hash of null is 0. |
| Frameworks.EqualsSymmetric | src/NuGet.Frameworks/comparers/FrameworkRangeComparer.cs:28-29 | Equality is symmetric whenever the framework comparer is. |
| Frameworks.HashIgnoresIdentifierCase | src/NuGet.Frameworks/comparers/FrameworkRangeComparer.cs:39-45 | Ranges that differ only in the casing of the identifier hash equally. |
| Frameworks.EqualRangesHashEqually | src/NuGet.Frameworks/comparers/FrameworkRangeComparer.cs:15-45 | Equal ranges hash equally whenever the framework hash agrees with the framework comparer. |
| Text.OrdinalLeqTotal | src/NuGet.Resolver/ResolverInputSort.cs:71 | The ordinal string order used for the last key is total. |
| Text.OrdinalLeqTransitive | src/NuGet.Resolver/ResolverInputSort.cs:71 | The ordinal string order is transitive. |
| Text.OrdinalLeqAntisymmetric | src/NuGet.Resolver/ResolverInputSort.cs:71 | The ordinal string order is antisymmetric. |

## Left out

- Case-insensitive comparison (`OrdinalIgnoreCase`, `StringComparer.OrdinalIgnoreCase`, `AddStringIgnoreCase`) is modelled as ASCII upper-case folding. Full Unicode simple case mapping is not modelled.
- `VersionRange` is modelled as its six fields, over an opaque version type. Version satisfaction, prerelease matching and `ToNormalizedString` are not part of this model; `ToNormalizedString` is a function parameter.
- `PackageDependencyComparer.Default`, `NuGetFramework.Comparer`, the framework hash and `HashCodeCombiner` are not part of this model. They are parameters: datatypes holding the comparison and hash functions. The lemmas about hashing assume only that these hashes agree with their equalities.
- Packaging.PackageDependency.GetHashCode and Packaging.PackageDependency.ToString have no contract of their own. Their meaning is stated by `EqualsImpliesSameHash` and `ToStringSplits`.
- Packaging.PackageDependency.Equals (the typed `Equals`) has no contract of its own. It is stated through `EqualsObject` and `EqualsImpliesSameHash`.
- ResolverSort.KeyOf, ResolverSort.ContainingCount and ResolverSort.KeyLeq (the four key selectors, all ascending, including the third) have no contract of their own. Their meaning is stated by `Best`, `KeyOfIgnoresCase`, the `KeyLeq` order lemmas, `ContainingCountCountsDependencies` and `ContainingCountStable`.
- Frameworks.GetHashCode states only the null case in its own contract. The order of the fold (identifier, then `Min`, then `Max`) appears only in its body and is not a proved property. `HashIgnoresIdentifierCase` and `EqualRangesHashEqually` state only when two hashes are equal.
- The parts of the `RestoreTargetGraph` constructor that call other components are not modelled: `ManagedCodeConventions`, the `RuntimeGraph` and `FrameworkRuntimePair.GetName`. Framework and runtime identifier are opaque pass-through values. `InConflict` and the logger parameter are also left out.
- The `graphs.ForEach` traversal is not part of this model. Its input is an already-enumerated sequence of nodes, each with a reference to its parent node.
- The paths of `Create` that would dereference null are excluded by the `Visitable` precondition: a node that is not skipped has an item, and an acceptable node has a parent with an item.
- `LibraryRange`, `ResolverRequest` and `ResolverConflict` are datatypes and compare structurally. `LibraryIdentity`, `GraphItem`, `RemoteMatch` and `Provider` are classes and compare by reference. The equality of these four types is not part of this model.
- `flattened`, `install` and the conflict requests therefore deduplicate by object reference, through the requestor's `LibraryIdentity`. Two distinct item or match objects for the same package and version stay two entries in the model, whereas an equality by resolved identity would collapse them.
- The `Dictionary` of conflicts is enumerated in key-insertion order, as the .NET dictionary does when no key is removed.
- ResolverSort.FindGroup returns the first matching group, whereas `Single()` also checks that no other matches. Distinct ids make the two agree, and `TreeFlatten` checks distinctness first.
- `TreeFlatten`'s exceptions from `Dictionary.Add` (duplicate ids) and from `First()` on an empty group are modelled as `Failure` results, and are detected before any state changes.
- The groups (`List<ResolverPackage>`) are modelled as values, and so are the dependency and parent sets (`SortedSet`s). Removing a group from `grouped` by value gives the same list as removing it at the index where it was found.
- The single-threaded model does not cover concurrent writers to a library's name.
