/**
 * What `RestoreTargetGraph.Create` promises about its outputs, proved of the
 * specification `Classify`: each output set holds exactly what the per-node
 * rules put there, whatever the order of the nodes.
 */
module RestoreGraphProperties {
  import opened Wrappers
  import opened RestoreGraph
  import Text

  lemma PrefixVisitable(nodes: seq<GraphNode?>, k: nat)
    requires AllVisitable(nodes) && k <= |nodes|
    ensures AllVisitable(nodes[..k])
  {
    forall n | n in nodes[..k] ensures Visitable(n) {
      assert n in nodes;
    }
  }

  /** Flattened is exactly the set of items of resolved (not skipped, not unresolved) nodes. */
  lemma {:induction false} FlattenedExactly(nodes: seq<GraphNode?>, remote: seq<Provider>, item: GraphItem)
    requires AllVisitable(nodes)
    ensures item in Classify(nodes, remote).flattened <==>
      exists n :: n in nodes && IsResolvedNode(n) && n.item == item
    decreases |nodes|
  {
    if nodes != [] {
      var init := nodes[..|nodes| - 1];
      PrefixVisitable(nodes, |nodes| - 1);
      FlattenedExactly(init, remote, item);
      assert nodes == init + [nodes[|nodes| - 1]];
    }
  }

  /** Install is exactly the set of matches of resolved nodes whose provider is remote. */
  lemma {:induction false} InstallExactly(nodes: seq<GraphNode?>, remote: seq<Provider>, m: RemoteMatch)
    requires AllVisitable(nodes)
    ensures m in Classify(nodes, remote).install <==>
      exists n :: n in nodes && IsResolvedNode(n) && n.item.remoteMatch == m && m.provider in remote
    decreases |nodes|
  {
    if nodes != [] {
      var init := nodes[..|nodes| - 1];
      PrefixVisitable(nodes, |nodes| - 1);
      InstallExactly(init, remote, m);
      assert nodes == init + [nodes[|nodes| - 1]];
    }
  }

  /**
   * Unresolved is exactly the set of keys of unresolved nodes that are not pure
   * references and carry a version range.
   */
  lemma {:induction false} UnresolvedExactly(nodes: seq<GraphNode?>, remote: seq<Provider>, r: LibraryRange)
    requires AllVisitable(nodes)
    ensures r in Classify(nodes, remote).unresolved <==>
      exists n :: n in nodes && IsUnresolvedNode(n) && n.key == Some(r)
                  && r.typeConstraint != Some(Reference) && r.versionRange.Some?
    decreases |nodes|
  {
    if nodes != [] {
      var init := nodes[..|nodes| - 1];
      PrefixVisitable(nodes, |nodes| - 1);
      UnresolvedExactly(init, remote, r);
      assert nodes == init + [nodes[|nodes| - 1]];
    }
  }

  /** A name is a conflict key exactly when some acceptable node requested that name (ordinal, case-sensitive). */
  lemma {:induction false} ConflictKeysExactly(nodes: seq<GraphNode?>, remote: seq<Provider>, name: string)
    requires AllVisitable(nodes)
    ensures name in Classify(nodes, remote).conflicts <==>
      exists n :: n in nodes && IsConflictNode(n) && n.key.value.name == name
    decreases |nodes|
  {
    if nodes != [] {
      var init := nodes[..|nodes| - 1];
      PrefixVisitable(nodes, |nodes| - 1);
      ConflictKeysExactly(init, remote, name);
      assert nodes == init + [nodes[|nodes| - 1]];
    }
  }

  /**
   * The requests under a name are exactly the (parent identity, requested range)
   * pairs of the acceptable nodes that requested that name.
   */
  lemma {:induction false} ConflictRequestsExactly(nodes: seq<GraphNode?>, remote: seq<Provider>, name: string, request: ResolverRequest)
    requires AllVisitable(nodes)
    ensures request in RequestsUnder(Classify(nodes, remote), name) <==>
      exists n :: n in nodes && IsConflictNode(n) && n.key.value.name == name && RequestOf(n) == request
    decreases |nodes|
  {
    if nodes != [] {
      var init := nodes[..|nodes| - 1];
      PrefixVisitable(nodes, |nodes| - 1);
      ConflictRequestsExactly(init, remote, name, request);
      assert nodes == init + [nodes[|nodes| - 1]];
    }
  }

  /** Every match queued for install belongs to a flattened item. */
  lemma InstallWithinFlattened(nodes: seq<GraphNode?>, remote: seq<Provider>, m: RemoteMatch)
    requires AllVisitable(nodes)
    requires m in Classify(nodes, remote).install
    ensures exists item :: item in Classify(nodes, remote).flattened && item.remoteMatch == m
  {
    InstallExactly(nodes, remote, m);
    var n :| n in nodes && IsResolvedNode(n) && n.item.remoteMatch == m && m.provider in remote;
    FlattenedExactly(nodes, remote, n.item);
  }

  /** Nothing is both flattened from and reported by an unresolved node: unresolved nodes add nothing to install or flattened. */
  lemma {:induction false} UnresolvedNodeAddsNoItem(nodes: seq<GraphNode?>, remote: seq<Provider>, node: GraphNode)
    requires AllVisitable(nodes + [node])
    requires IsUnresolvedNode(node)
    ensures Classify(nodes + [node], remote).install == Classify(nodes, remote).install
    ensures Classify(nodes + [node], remote).flattened == Classify(nodes, remote).flattened
  {
    assert (nodes + [node])[..|nodes|] == nodes;
  }

  /** A skipped node (null, null key, or rejected) changes none of the four outputs. */
  lemma SkippedNodeChangesNothing(nodes: seq<GraphNode?>, remote: seq<Provider>, node: GraphNode?)
    requires AllVisitable(nodes + [node])
    requires Skipped(node)
    ensures Classify(nodes + [node], remote) == Classify(nodes, remote)
  {
    assert (nodes + [node])[..|nodes|] == nodes;
  }

  /** An acceptable node is not skipped after its conflict is recorded: a resolved one is still flattened. */
  lemma AcceptableNodeIsAlsoFlattened(nodes: seq<GraphNode?>, remote: seq<Provider>, node: GraphNode)
    requires AllVisitable(nodes) && node in nodes
    requires IsConflictNode(node) && IsResolvedNode(node)
    ensures node.key.value.name in Classify(nodes, remote).conflicts
    ensures RequestOf(node) in RequestsUnder(Classify(nodes, remote), node.key.value.name)
    ensures node.item in Classify(nodes, remote).flattened
  {
    ConflictKeysExactly(nodes, remote, node.key.value.name);
    ConflictRequestsExactly(nodes, remote, node.key.value.name, RequestOf(node));
    FlattenedExactly(nodes, remote, node.item);
  }

  /**
   * The conflict list holds one entry per recorded name, no name twice, each
   * carrying exactly the requests accumulated under that name.
   */
  lemma ConflictListOnePerName(nodes: seq<GraphNode?>, remote: seq<Provider>)
    requires AllVisitable(nodes)
    ensures ClassifyKeysListed(nodes, remote)
    ensures forall i, j :: 0 <= i < j < |ConflictList(Classify(nodes, remote))| ==>
      ConflictList(Classify(nodes, remote))[i].name != ConflictList(Classify(nodes, remote))[j].name
    ensures forall name :: name in Classify(nodes, remote).conflicts ==>
      exists i :: 0 <= i < |ConflictList(Classify(nodes, remote))|
        && ConflictList(Classify(nodes, remote))[i] == ResolverConflict(name, Classify(nodes, remote).conflicts[name])
  {
    ClassifyKeysListedHolds(nodes, remote);
    var acc := Classify(nodes, remote);
    var list := ConflictList(acc);
    forall name | name in acc.conflicts
      ensures exists i :: 0 <= i < |list| && list[i] == ResolverConflict(name, acc.conflicts[name])
    {
      assert name in acc.conflictNames;
      var i :| 0 <= i < |acc.conflictNames| && acc.conflictNames[i] == name;
      assert list[i] == ResolverConflict(name, acc.conflicts[name]);
    }
  }

  /** Classifying two nodes is two steps from the empty accumulators. */
  lemma ClassifyTwo(a: GraphNode, b: GraphNode, remote: seq<Provider>)
    requires Visitable(a) && Visitable(b)
    ensures AllVisitable([a, b])
    ensures Classify([a, b], remote) == Step(Step(Empty, a, remote), b, remote)
  {
    var one: seq<GraphNode?> := [a];
    var two: seq<GraphNode?> := [a, b];
    assert two[..1] == one && one[..0] == [];
    assert Classify(one, remote) == Step(Classify(one[..0], remote), one[0], remote);
  }

  /** An acceptable node whose name is new appends the name and starts its request set. */
  lemma NewConflictStep(acc: Accumulators, node: GraphNode, remote: seq<Provider>)
    requires Visitable(node) && IsConflictNode(node) && node.key.value.name !in acc.conflicts
    ensures Step(acc, node, remote).conflictNames == acc.conflictNames + [node.key.value.name]
    ensures Step(acc, node, remote).conflicts.Keys == acc.conflicts.Keys + {node.key.value.name}
    ensures Step(acc, node, remote).conflicts[node.key.value.name] == {RequestOf(node)}
    ensures forall k :: k in acc.conflicts ==> Step(acc, node, remote).conflicts[k] == acc.conflicts[k]
  {
  }

  /** Two acceptable nodes with different names give two entries, in visiting order. */
  lemma TwoNewConflicts(a: GraphNode, b: GraphNode, remote: seq<Provider>)
    requires Visitable(a) && Visitable(b) && IsConflictNode(a) && IsConflictNode(b)
    requires a.key.value.name != b.key.value.name
    ensures var acc := Step(Step(Empty, a, remote), b, remote);
      && acc.conflictNames == [a.key.value.name, b.key.value.name]
      && a.key.value.name in acc.conflicts && acc.conflicts[a.key.value.name] == {RequestOf(a)}
      && b.key.value.name in acc.conflicts && acc.conflicts[b.key.value.name] == {RequestOf(b)}
  {
    NewConflictStep(Empty, a, remote);
    NewConflictStep(Step(Empty, a, remote), b, remote);
  }

  /** The listing of two recorded names. */
  lemma TwoConflictList(acc: Accumulators, x: string, y: string)
    requires acc.conflictNames == [x, y] && x in acc.conflicts && y in acc.conflicts
    ensures ConflictList(acc) == [ResolverConflict(x, acc.conflicts[x]), ResolverConflict(y, acc.conflicts[y])]
  {
    var list := ConflictList(acc);
    assert list[0] == ResolverConflict(x, acc.conflicts[x]);
    assert list[1] == ResolverConflict(y, acc.conflicts[y]);
  }

  lemma FooSpellings()
    ensures "Foo" != "foo" && Text.EqualsIgnoreCase("Foo", "foo")
  {
    assert "Foo"[0] != "foo"[0];
    assert Text.Fold("Foo") == Text.Fold("foo") by {
      assert Text.Fold("Foo") == "FOO";
      assert Text.Fold("foo") == "FOO";
    }
  }

  /** Names that differ only in case are separate conflict entries, in request order. */
  lemma CaseSensitiveConflictKeys(a: GraphNode, b: GraphNode, remote: seq<Provider>)
    requires Visitable(a) && Visitable(b) && IsConflictNode(a) && IsConflictNode(b)
    requires a.key.value.name == "Foo" && b.key.value.name == "foo"
    ensures Text.EqualsIgnoreCase(a.key.value.name, b.key.value.name)
    ensures ClassifyKeysListed([a, b], remote)
    ensures ConflictList(Classify([a, b], remote)) ==
      [ResolverConflict("Foo", {RequestOf(a)}), ResolverConflict("foo", {RequestOf(b)})]
  {
    FooSpellings();
    ClassifyTwo(a, b, remote);
    ClassifyKeysListedHolds([a, b], remote);
    TwoNewConflicts(a, b, remote);
    TwoConflictList(Step(Step(Empty, a, remote), b, remote), "Foo", "foo");
  }

  /**
   * An accepted node and an acceptable node for the same name give exactly one
   * conflict entry, holding only the acceptable node's request.
   */
  lemma AcceptedAndAcceptableGiveOneConflict(winner: GraphNode, loser: GraphNode, remote: seq<Provider>)
    requires Visitable(winner) && Visitable(loser)
    requires !Skipped(winner) && winner.disposition == Accepted
    requires IsConflictNode(loser) && loser.key.value.name == winner.key.value.name
    ensures ClassifyKeysListed([winner, loser], remote)
    ensures ConflictList(Classify([winner, loser], remote)) ==
      [ResolverConflict(loser.key.value.name, {RequestOf(loser)})]
  {
    var one: seq<GraphNode?> := [winner];
    var two: seq<GraphNode?> := [winner, loser];
    assert two[..1] == one && one[..0] == [];
    var first := Classify(one, remote);
    assert Classify(one[..0], remote) == Empty;
    assert one[0] == winner;
    assert first == Step(Classify(one[..0], remote), one[0], remote);
    assert first == Step(Empty, winner, remote);
    assert first.conflictNames == [] && first.conflicts == map[];
    var both := Classify([winner, loser], remote);
    assert both == Step(first, loser, remote);
    assert both.conflictNames == [loser.key.value.name];
    assert both.conflicts[loser.key.value.name] == {RequestOf(loser)};
    ClassifyKeysListedHolds([winner, loser], remote);
  }

  /** All outputs only grow during the pass; recorded names keep their order. */
  lemma {:induction false} ClassifyGrows(nodes: seq<GraphNode?>, more: seq<GraphNode?>, remote: seq<Provider>)
    requires AllVisitable(nodes + more)
    ensures AllVisitable(nodes)
    ensures Classify(nodes, remote).install <= Classify(nodes + more, remote).install
    ensures Classify(nodes, remote).flattened <= Classify(nodes + more, remote).flattened
    ensures Classify(nodes, remote).unresolved <= Classify(nodes + more, remote).unresolved
    ensures Classify(nodes, remote).conflictNames <= Classify(nodes + more, remote).conflictNames
    ensures forall name :: RequestsUnder(Classify(nodes, remote), name) <= RequestsUnder(Classify(nodes + more, remote), name)
    decreases |more|
  {
    assert (nodes + more)[..|nodes|] == nodes;
    PrefixVisitable(nodes + more, |nodes|);
    if more == [] {
      assert nodes + more == nodes;
    } else {
      var shorter := more[..|more| - 1];
      assert (nodes + more)[..|nodes + more| - 1] == nodes + shorter;
      PrefixVisitable(nodes + more, |nodes + more| - 1);
      ClassifyGrows(nodes, shorter, remote);
      assert Classify(nodes + more, remote) ==
        Step(Classify(nodes + shorter, remote), (nodes + more)[|nodes + more| - 1], remote);
    }
  }

  /**
   * The three output sets and the conflict dictionary depend only on which
   * nodes are visited, not on their order or repetition.
   */
  lemma SameNodesSameClassification(a: seq<GraphNode?>, b: seq<GraphNode?>, remote: seq<Provider>)
    requires AllVisitable(a) && AllVisitable(b)
    requires forall n :: n in a <==> n in b
    ensures Classify(a, remote).install == Classify(b, remote).install
    ensures Classify(a, remote).flattened == Classify(b, remote).flattened
    ensures Classify(a, remote).unresolved == Classify(b, remote).unresolved
    ensures Classify(a, remote).conflicts == Classify(b, remote).conflicts
  {
    forall m | m in Classify(a, remote).install
      ensures m in Classify(b, remote).install
    {
      InstallExactly(a, remote, m);
      InstallExactly(b, remote, m);
      var n :| n in a && IsResolvedNode(n) && n.item.remoteMatch == m && m.provider in remote;
      assert n in b;
    }
    forall m | m in Classify(b, remote).install
      ensures m in Classify(a, remote).install
    {
      InstallExactly(a, remote, m);
      InstallExactly(b, remote, m);
      var n :| n in b && IsResolvedNode(n) && n.item.remoteMatch == m && m.provider in remote;
      assert n in a;
    }
    forall item | item in Classify(a, remote).flattened
      ensures item in Classify(b, remote).flattened
    {
      FlattenedExactly(a, remote, item);
      FlattenedExactly(b, remote, item);
      var n :| n in a && IsResolvedNode(n) && n.item == item;
      assert n in b;
    }
    forall item | item in Classify(b, remote).flattened
      ensures item in Classify(a, remote).flattened
    {
      FlattenedExactly(a, remote, item);
      FlattenedExactly(b, remote, item);
      var n :| n in b && IsResolvedNode(n) && n.item == item;
      assert n in a;
    }
    forall r: LibraryRange
      ensures r in Classify(a, remote).unresolved <==> r in Classify(b, remote).unresolved
    {
      UnresolvedExactly(a, remote, r);
      UnresolvedExactly(b, remote, r);
    }
    var ca, cb := Classify(a, remote).conflicts, Classify(b, remote).conflicts;
    forall name: string
      ensures name in ca <==> name in cb
    {
      ConflictKeysExactly(a, remote, name);
      ConflictKeysExactly(b, remote, name);
    }
    forall name | name in ca
      ensures ca[name] == cb[name]
    {
      forall request: ResolverRequest
        ensures request in RequestsUnder(Classify(a, remote), name) <==> request in RequestsUnder(Classify(b, remote), name)
      {
        ConflictRequestsExactly(a, remote, name, request);
        ConflictRequestsExactly(b, remote, name, request);
      }
      assert RequestsUnder(Classify(a, remote), name) == RequestsUnder(Classify(b, remote), name);
    }
  }

  /** A library that no resolved node points to keeps its name. */
  lemma {:induction false} FinalNameUntouched(nodes: seq<GraphNode?>, library: LibraryIdentity, initial: string)
    requires forall n :: n in nodes && IsResolvedNode(n) ==> n.item.remoteMatch.library != library
    ensures FinalName(nodes, library, initial) == initial
    decreases |nodes|
  {
    if nodes != [] {
      var init := nodes[..|nodes| - 1];
      assert forall n :: n in init ==> n in nodes;
      FinalNameUntouched(init, library, initial);
    }
  }

  /**
   * When every resolved node that reaches a library requests the same name,
   * and at least one does, the library ends with that name.
   */
  lemma {:induction false} FinalNameAgreed(nodes: seq<GraphNode?>, library: LibraryIdentity, initial: string, name: string)
    requires exists n :: n in nodes && IsResolvedNode(n) && n.item.remoteMatch.library == library
    requires forall n :: n in nodes && IsResolvedNode(n) && n.item.remoteMatch.library == library ==>
      n.key.value.name == name
    ensures FinalName(nodes, library, initial) == name
    decreases |nodes|
  {
    var last := nodes[|nodes| - 1];
    if !(IsResolvedNode(last) && last.item.remoteMatch.library == library) {
      var init := nodes[..|nodes| - 1];
      assert nodes == init + [last];
      assert forall n :: n in init ==> n in nodes;
      FinalNameAgreed(init, library, initial, name);
    }
  }
}
