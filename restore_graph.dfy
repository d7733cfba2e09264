/**
 * `RestoreTargetGraph.Create` (src/NuGet.Commands/RestoreGraph.cs): one pass
 * over the nodes of a resolved dependency graph for one framework/runtime pair.
 * Each node is skipped, recorded as a conflict request, recorded as unresolved,
 * or accepted: its library name is re-cased to the requested name, its match is
 * queued for install when its provider is remote, and its item is flattened.
 */
module RestoreGraph {
  import opened Wrappers
  import opened Versioning
  import Frameworks

  /** The library types of `LibraryTypes`. */
  datatype LibraryType = Package | Project | ExternalProject | Reference | Unresolved

  /** The walker's verdict on a node. */
  datatype Disposition = Acceptable | Rejected | Accepted | PotentiallyDowngraded | Cycle

  /** A request: a name, an optional (nullable) version range and an optional type constraint. */
  datatype LibraryRange = LibraryRange(
    name: string,
    versionRange: Option<VersionRange>,
    typeConstraint: Option<LibraryType>)

  /** A resolved library; its name is the one field this core writes. */
  class LibraryIdentity {
    var name: string
    const version: NuGetVersion
    const libraryType: LibraryType

    constructor (name: string, version: NuGetVersion, libraryType: LibraryType)
      ensures this.name == name && this.version == version && this.libraryType == libraryType
    {
      this.name := name;
      this.version := version;
      this.libraryType := libraryType;
    }
  }

  /** A library provider, compared by reference. */
  class Provider {
    constructor () { }
  }

  /** `RemoteMatch`: the provider that resolved a library and the library itself. */
  class RemoteMatch {
    const provider: Provider
    const library: LibraryIdentity

    constructor (provider: Provider, library: LibraryIdentity)
      ensures this.provider == provider && this.library == library
    {
      this.provider := provider;
      this.library := library;
    }
  }

  /** `GraphItem<RemoteResolveResult>`: a resolved identity and its match (`Data.Match`). */
  class GraphItem {
    const key: LibraryIdentity
    const remoteMatch: RemoteMatch

    constructor (key: LibraryIdentity, remoteMatch: RemoteMatch)
      ensures this.key == key && this.remoteMatch == remoteMatch
    {
      this.key := key;
      this.remoteMatch := remoteMatch;
    }
  }

  /** `GraphNode<RemoteResolveResult>`: `None` and `null` stand for the source's nulls. */
  class GraphNode {
    const key: Option<LibraryRange>
    const item: GraphItem?
    const disposition: Disposition
    const outerNode: GraphNode?

    constructor (key: Option<LibraryRange>, item: GraphItem?, disposition: Disposition, outerNode: GraphNode?)
      ensures this.key == key && this.item == item && this.disposition == disposition && this.outerNode == outerNode
    {
      this.key := key;
      this.item := item;
      this.disposition := disposition;
      this.outerNode := outerNode;
    }
  }

  /** A losing request: the parent's resolved identity and the requested range. */
  datatype ResolverRequest = ResolverRequest(requestor: LibraryIdentity, request: LibraryRange)

  /** All losing requests recorded under one library name. */
  datatype ResolverConflict = ResolverConflict(name: string, requests: set<ResolverRequest>)

  /** `RemoteWalkContext.RemoteLibraryProviders`. */
  datatype RemoteWalkContext = RemoteWalkContext(remoteLibraryProviders: seq<Provider>)

  /**
   * The locals that `Create` fills: `install`, `flattened`, `unresolved`, and the
   * `conflicts` dictionary (ordinal keys) whose keys are listed in insertion
   * order in `conflictNames`.
   */
  datatype Accumulators = Accumulators(
    install: set<RemoteMatch>,
    flattened: set<GraphItem>,
    unresolved: set<LibraryRange>,
    conflictNames: seq<string>,
    conflicts: map<string, set<ResolverRequest>>)

  const Empty: Accumulators := Accumulators({}, {}, {}, [], map[])

  /** A null node, a node with a null key, or a rejected node has no effect. */
  predicate Skipped(node: GraphNode?) {
    node == null || node.key.None? || node.disposition == Rejected
  }

  /**
   * The node can be visited without a null dereference: a node that is not
   * skipped has an item, and an acceptable one has a parent with an item.
   */
  predicate Visitable(node: GraphNode?) {
    Skipped(node)
    || (node.item != null
        && (node.disposition == Acceptable ==> node.outerNode != null && node.outerNode.item != null))
  }

  predicate AllVisitable(nodes: seq<GraphNode?>) {
    forall n :: n in nodes ==> Visitable(n)
  }

  /** Not skipped and acceptable: records a conflict request. */
  predicate IsConflictNode(node: GraphNode?) {
    !Skipped(node) && node.disposition == Acceptable
  }

  /** Not skipped and resolved to the unresolved placeholder type. */
  predicate IsUnresolvedNode(node: GraphNode?) {
    !Skipped(node) && node.item != null && node.item.key.libraryType == Unresolved
  }

  /** Not skipped and resolved to a real library: re-cased, maybe installed, flattened. */
  predicate IsResolvedNode(node: GraphNode?) {
    !Skipped(node) && node.item != null && node.item.key.libraryType != Unresolved
  }

  /** An unresolved node is reported unless it is a pure reference or has no range. */
  predicate ReportsUnresolved(node: GraphNode?) {
    IsUnresolvedNode(node)
    && node.key.value.typeConstraint != Some(Reference)
    && node.key.value.versionRange.Some?
  }

  /** A resolved node whose provider is remote. */
  predicate IsInstallNode(node: GraphNode?, remote: seq<Provider>) {
    IsResolvedNode(node) && node.item.remoteMatch.provider in remote
  }

  /** The request an acceptable node records. */
  function RequestOf(node: GraphNode): ResolverRequest
    requires IsConflictNode(node) && Visitable(node)
  {
    ResolverRequest(node.outerNode.item.key, node.key.value)
  }

  /** The requests already recorded under `name`, or none. */
  function RequestsUnder(acc: Accumulators, name: string): set<ResolverRequest> {
    if name in acc.conflicts then acc.conflicts[name] else {}
  }

  /** The conflict-dictionary update for one acceptable node. */
  function RecordConflict(acc: Accumulators, node: GraphNode): (next: Accumulators)
    requires IsConflictNode(node) && Visitable(node)
    ensures next.conflicts.Keys == acc.conflicts.Keys + {node.key.value.name}
    ensures forall name ::
              RequestsUnder(next, name) ==
              RequestsUnder(acc, name) + (if name == node.key.value.name then {RequestOf(node)} else {})
    ensures acc.conflictNames <= next.conflictNames && |next.conflictNames| <= |acc.conflictNames| + 1
    ensures KeysListed(acc) ==> KeysListed(next)
    ensures next.install == acc.install && next.flattened == acc.flattened && next.unresolved == acc.unresolved
  {
    var name := node.key.value.name;
    var names := if name in acc.conflicts then acc.conflictNames else acc.conflictNames + [name];
    acc.(conflictNames := names, conflicts := acc.conflicts[name := RequestsUnder(acc, name) + {RequestOf(node)}])
  }

  /** The per-node rule of the visitor, on the accumulators. */
  function Step(acc: Accumulators, node: GraphNode?, remote: seq<Provider>): (next: Accumulators)
    requires Visitable(node)
    ensures Skipped(node) ==> next == acc
    ensures next.flattened == if IsResolvedNode(node) then acc.flattened + {node.item} else acc.flattened
    ensures next.install == if IsInstallNode(node, remote) then acc.install + {node.item.remoteMatch} else acc.install
    ensures next.unresolved == if ReportsUnresolved(node) then acc.unresolved + {node.key.value} else acc.unresolved
    ensures !IsConflictNode(node) ==> next.conflicts == acc.conflicts && next.conflictNames == acc.conflictNames
    ensures IsConflictNode(node) ==>
      next.conflicts == acc.conflicts[node.key.value.name := RequestsUnder(acc, node.key.value.name) + {RequestOf(node)}]
    ensures IsConflictNode(node) ==>
      next.conflictNames == if node.key.value.name in acc.conflicts then acc.conflictNames
                            else acc.conflictNames + [node.key.value.name]
  {
    if Skipped(node) then acc
    else
      var afterConflict := if node.disposition == Acceptable then RecordConflict(acc, node) else acc;
      if node.item.key.libraryType == Unresolved then
        if node.key.value.typeConstraint != Some(Reference) && node.key.value.versionRange.Some? then
          afterConflict.(unresolved := afterConflict.unresolved + {node.key.value})
        else
          afterConflict
      else
        var install := if node.item.remoteMatch.provider in remote then afterConflict.install + {node.item.remoteMatch}
                       else afterConflict.install;
        afterConflict.(install := install, flattened := afterConflict.flattened + {node.item})
  }

  /** The accumulators after visiting `nodes` in order. */
  function Classify(nodes: seq<GraphNode?>, remote: seq<Provider>): Accumulators
    requires AllVisitable(nodes)
    decreases |nodes|
  {
    if nodes == [] then Empty
    else Step(Classify(nodes[..|nodes| - 1], remote), nodes[|nodes| - 1], remote)
  }

  /** The name a library holds after visiting `nodes`, when it held `initial` before. */
  function FinalName(nodes: seq<GraphNode?>, library: LibraryIdentity, initial: string): string
    decreases |nodes|
  {
    if nodes == [] then initial
    else
      var last := nodes[|nodes| - 1];
      if IsResolvedNode(last) && last.item.remoteMatch.library == library then last.key.value.name
      else FinalName(nodes[..|nodes| - 1], library, initial)
  }

  /** The libraries whose name the pass may rewrite. */
  function Libraries(nodes: seq<GraphNode?>): set<LibraryIdentity> {
    set i | 0 <= i < |nodes| && IsResolvedNode(nodes[i]) :: nodes[i].item.remoteMatch.library
  }

  /** One conflict per dictionary key, in key insertion order, carrying that key's requests. */
  function ConflictList(acc: Accumulators): (list: seq<ResolverConflict>)
    requires forall i :: 0 <= i < |acc.conflictNames| ==> acc.conflictNames[i] in acc.conflicts
    ensures |list| == |acc.conflictNames|
    ensures forall i :: 0 <= i < |list| ==>
      list[i].name == acc.conflictNames[i] && list[i].requests == acc.conflicts[list[i].name]
  {
    seq(|acc.conflictNames|, i requires 0 <= i < |acc.conflictNames| =>
      ResolverConflict(acc.conflictNames[i], acc.conflicts[acc.conflictNames[i]]))
  }

  /** The dictionary's key list holds each key exactly once. */
  ghost predicate KeysListed(acc: Accumulators) {
    && (forall i, j :: 0 <= i < j < |acc.conflictNames| ==> acc.conflictNames[i] != acc.conflictNames[j])
    && (forall name :: name in acc.conflictNames <==> name in acc.conflicts)
  }

  /** The visitor body for one node; rewrites the library name of a resolved node. */
  method Visit(acc: Accumulators, node: GraphNode?, remote: seq<Provider>) returns (next: Accumulators)
    requires Visitable(node)
    modifies if IsResolvedNode(node) then {node.item.remoteMatch.library} else {}
    ensures next == Step(acc, node, remote)
    ensures IsResolvedNode(node) ==> node.item.remoteMatch.library.name == node.key.value.name
  {
    next := acc;
    if node == null || node.key.None? || node.disposition == Rejected {
      return;
    }
    var key := node.key.value;

    if node.disposition == Acceptable {
      var ranges: set<ResolverRequest>;
      if key.name in next.conflicts {
        ranges := next.conflicts[key.name];
      } else {
        ranges := {};
        next := next.(conflictNames := next.conflictNames + [key.name], conflicts := next.conflicts[key.name := ranges]);
      }
      ranges := ranges + {ResolverRequest(node.outerNode.item.key, key)};
      next := next.(conflicts := next.conflicts[key.name := ranges]);
    }

    if node.item.key.libraryType == Unresolved {
      if key.typeConstraint != Some(Reference) && key.versionRange != None {
        next := next.(unresolved := next.unresolved + {key});
      }
      return;
    }

    var library := node.item.remoteMatch.library;
    if library.name != key.name {
      library.name := key.name;
    }

    if node.item.remoteMatch.provider in remote {
      next := next.(install := next.install + {node.item.remoteMatch});
    }

    next := next.(flattened := next.flattened + {node.item});
  }

  /** `RestoreTargetGraph`: the classification of one framework/runtime graph. */
  class RestoreTargetGraph {
    const writeToLockFile: bool
    const framework: Frameworks.NuGetFramework
    const runtimeIdentifier: Option<string>
    const graphs: seq<GraphNode?>
    const install: set<RemoteMatch>
    const flattened: set<GraphItem>
    const unresolved: set<LibraryRange>
    const conflicts: seq<ResolverConflict>

    constructor (conflicts: seq<ResolverConflict>, writeToLockFile: bool, framework: Frameworks.NuGetFramework,
                 runtimeIdentifier: Option<string>, graphs: seq<GraphNode?>, install: set<RemoteMatch>,
                 flattened: set<GraphItem>, unresolved: set<LibraryRange>)
      ensures this.conflicts == conflicts && this.writeToLockFile == writeToLockFile
      ensures this.framework == framework && this.runtimeIdentifier == runtimeIdentifier && this.graphs == graphs
      ensures this.install == install && this.flattened == flattened && this.unresolved == unresolved
    {
      this.conflicts := conflicts;
      this.writeToLockFile := writeToLockFile;
      this.framework := framework;
      this.runtimeIdentifier := runtimeIdentifier;
      this.graphs := graphs;
      this.install := install;
      this.flattened := flattened;
      this.unresolved := unresolved;
    }

    /** Classifies every node of `graphs`, in order. */
    static method Create(writeToLockFile: bool, graphs: seq<GraphNode?>, context: RemoteWalkContext,
                         framework: Frameworks.NuGetFramework, runtimeIdentifier: Option<string>)
      returns (g: RestoreTargetGraph)
      requires AllVisitable(graphs)
      modifies Libraries(graphs)
      ensures fresh(g)
      ensures g.install == Classify(graphs, context.remoteLibraryProviders).install
      ensures g.flattened == Classify(graphs, context.remoteLibraryProviders).flattened
      ensures g.unresolved == Classify(graphs, context.remoteLibraryProviders).unresolved
      ensures ClassifyKeysListed(graphs, context.remoteLibraryProviders)
      ensures g.conflicts == ConflictList(Classify(graphs, context.remoteLibraryProviders))
      ensures g.writeToLockFile == writeToLockFile && g.framework == framework
      ensures g.runtimeIdentifier == runtimeIdentifier && g.graphs == graphs
      ensures forall library :: library in Libraries(graphs) ==>
        library.name == FinalName(graphs, library, old(library.name))
    {
      var remote := context.remoteLibraryProviders;
      var acc := Empty;
      var i := 0;
      while i < |graphs|
        invariant 0 <= i <= |graphs|
        invariant acc == Classify(graphs[..i], remote)
        invariant forall library :: library in Libraries(graphs) ==>
          library.name == FinalName(graphs[..i], library, old(library.name))
      {
        assert graphs[..i + 1][..i] == graphs[..i];
        ghost var before := graphs[..i];
        acc := Visit(acc, graphs[i], remote);
        i := i + 1;
        assert graphs[..i][..i - 1] == before;
      }
      assert graphs[..i] == graphs;
      ClassifyKeysListedHolds(graphs, remote);
      g := new RestoreTargetGraph(ConflictList(acc), writeToLockFile, framework, runtimeIdentifier,
                                  graphs, acc.install, acc.flattened, acc.unresolved);
    }

    /** The overload without a runtime identifier. */
    static method CreateForFramework(writeToLockFile: bool, graphs: seq<GraphNode?>, context: RemoteWalkContext,
                                     framework: Frameworks.NuGetFramework)
      returns (g: RestoreTargetGraph)
      requires AllVisitable(graphs)
      modifies Libraries(graphs)
      ensures fresh(g) && g.runtimeIdentifier.None?
      ensures g.flattened == Classify(graphs, context.remoteLibraryProviders).flattened
      ensures g.install == Classify(graphs, context.remoteLibraryProviders).install
      ensures g.unresolved == Classify(graphs, context.remoteLibraryProviders).unresolved
      ensures ClassifyKeysListed(graphs, context.remoteLibraryProviders)
      ensures g.conflicts == ConflictList(Classify(graphs, context.remoteLibraryProviders))
      ensures g.writeToLockFile == writeToLockFile && g.framework == framework && g.graphs == graphs
      ensures forall library :: library in Libraries(graphs) ==>
        library.name == FinalName(graphs, library, old(library.name))
    {
      g := Create(writeToLockFile, graphs, context, framework, None);
    }
  }

  ghost predicate ClassifyKeysListed(nodes: seq<GraphNode?>, remote: seq<Provider>)
    requires AllVisitable(nodes)
  {
    KeysListed(Classify(nodes, remote))
  }

  /** The pass keeps the conflict dictionary's key list exact: each recorded name once. */
  lemma {:induction false} ClassifyKeysListedHolds(nodes: seq<GraphNode?>, remote: seq<Provider>)
    requires AllVisitable(nodes)
    ensures ClassifyKeysListed(nodes, remote)
    decreases |nodes|
  {
    if nodes != [] {
      var init := nodes[..|nodes| - 1];
      assert AllVisitable(init) by {
        forall n | n in init ensures Visitable(n) { assert n in nodes; }
      }
      ClassifyKeysListedHolds(init, remote);
    }
  }
}
