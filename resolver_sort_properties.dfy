/**
 * Properties of the `TreeFlatten` model: what the `parents` dictionary holds,
 * how placing an id changes the selection keys, which id a round picks, that
 * the result does not depend on the order of the ids, and the worked example
 * from the method's documentation comment.
 */
module ResolverSortProperties {
  import opened Text
  import opened Versioning
  import opened Packaging
  import opened ResolverSort

  /** Two positions of a case-distinct id list with the same folded id are one position. */
  lemma SameFoldSameIndex(ids: seq<string>, a: nat, b: nat)
    requires DistinctIgnoreCase(ids) && a < |ids| && b < |ids|
    requires Fold(ids[a]) == Fold(ids[b])
    ensures a == b
  {
  }

  /**
   * Group `j` is a parent of group `i` exactly when they are different groups
   * and some non-null dependency of some package in group `j` names group `i`'s
   * id, ignoring case.
   */
  lemma {:induction false} ParentsExactly(groups: seq<Group>, i: nat, j: nat)
    requires Sortable(groups) && i < |groups| && j < |groups|
    ensures Fold(FirstIds(groups)[i]) in InitialParents(FirstIds(groups), DependencySets(groups))
    ensures Fold(FirstIds(groups)[j]) in InitialParents(FirstIds(groups), DependencySets(groups))[Fold(FirstIds(groups)[i])]
        <==> i != j && exists pkg, d :: pkg in groups[j] && d in pkg.dependencies && d != null
                                          && Fold(d.id) == Fold(FirstIds(groups)[i])
  {
    var ids := FirstIds(groups);
    var deps := DependencySets(groups);
    var parents := InitialParents(ids, deps);
    assert parents[Fold(ids[i])] == ParentsOf(ids, deps, i);
    if Fold(ids[j]) in parents[Fold(ids[i])] {
      var m :| 0 <= m < |ids| && m != i && Fold(ids[i]) in deps[m] && Fold(ids[m]) == Fold(ids[j]);
      SameFoldSameIndex(ids, m, j);
      assert Fold(ids[i]) in DependencyIds(groups[j]);
    }
    if i != j && exists pkg, d :: pkg in groups[j] && d in pkg.dependencies && d != null && Fold(d.id) == Fold(ids[i]) {
      var pkg, d :| pkg in groups[j] && d in pkg.dependencies && d != null && Fold(d.id) == Fold(ids[i]);
      assert Fold(ids[i]) in DependencyIds(groups[j]);
      assert Fold(ids[j]) in ParentsOf(ids, deps, i);
    }
  }

  /** A group that depends on itself is not its own parent. */
  lemma NoSelfParent(groups: seq<Group>, i: nat)
    requires Sortable(groups) && i < |groups|
    ensures Fold(FirstIds(groups)[i]) !in InitialParents(FirstIds(groups), DependencySets(groups))[Fold(FirstIds(groups)[i])]
  {
    ParentsExactly(groups, i, i);
  }

  /** The folded ids whose parent set holds `ids[i]`. */
  ghost function Holding(ids: seq<string>, deps: seq<set<string>>, i: nat): set<string>
    requires |deps| == |ids| && DistinctIgnoreCase(ids) && i < |ids|
  {
    var parents := InitialParents(ids, deps);
    set k | k in parents && Fold(ids[i]) in parents[k]
  }

  /** The other listed ids that group `i` depends on, folded. */
  ghost function Needed(ids: seq<string>, deps: seq<set<string>>, i: nat): set<string>
    requires |deps| == |ids| && i < |ids|
  {
    set j | 0 <= j < |ids| && j != i && Fold(ids[j]) in deps[i] :: Fold(ids[j])
  }

  lemma HoldingWithinNeeded(ids: seq<string>, deps: seq<set<string>>, i: nat, k: string)
    requires |deps| == |ids| && DistinctIgnoreCase(ids) && i < |ids|
    requires k in Holding(ids, deps, i)
    ensures k in Needed(ids, deps, i)
  {
    var parents := InitialParents(ids, deps);
    var m :| 0 <= m < |ids| && Fold(ids[m]) == k;
    assert Fold(ids[i]) in ParentsOf(ids, deps, m);
    var j :| 0 <= j < |ids| && j != m && Fold(ids[m]) in deps[j] && Fold(ids[j]) == Fold(ids[i]);
    SameFoldSameIndex(ids, j, i);
  }

  lemma NeededWithinHolding(ids: seq<string>, deps: seq<set<string>>, i: nat, k: string)
    requires |deps| == |ids| && DistinctIgnoreCase(ids) && i < |ids|
    requires k in Needed(ids, deps, i)
    ensures k in Holding(ids, deps, i)
  {
    var m :| 0 <= m < |ids| && m != i && Fold(ids[m]) in deps[i] && Fold(ids[m]) == k;
    assert Fold(ids[i]) in ParentsOf(ids, deps, m);
  }

  /**
   * Before the first round the third key of `ids[i]` counts the other listed
   * ids that `ids[i]`'s own group depends on; the key is ascending, so fewer
   * such dependencies come first.
   */
  lemma ContainingCountCountsDependencies(ids: seq<string>, deps: seq<set<string>>, i: nat)
    requires |deps| == |ids| && DistinctIgnoreCase(ids) && i < |ids|
    ensures ContainingCount(InitialParents(ids, deps), ids[i])
         == |set j | 0 <= j < |ids| && j != i && Fold(ids[j]) in deps[i] :: Fold(ids[j])|
  {
    forall k | k in Holding(ids, deps, i) ensures k in Needed(ids, deps, i) {
      HoldingWithinNeeded(ids, deps, i, k);
    }
    forall k | k in Needed(ids, deps, i) ensures k in Holding(ids, deps, i) {
      NeededWithinHolding(ids, deps, i, k);
    }
    assert Holding(ids, deps, i) == Needed(ids, deps, i);
  }

  /** Placing an id takes it out of every parent set and nothing else; no set grows. */
  lemma PlacedShrinks(parents: map<string, set<string>>, id: string, k: string)
    requires k in parents
    ensures Fold(id) !in Placed(parents, id)[k]
    ensures |Placed(parents, id)[k]| == if Fold(id) in parents[k] then |parents[k]| - 1 else |parents[k]|
  {
    if Fold(id) in parents[k] {
      assert parents[k] == Placed(parents, id)[k] + {Fold(id)};
    } else {
      assert Placed(parents, id)[k] == parents[k];
    }
  }

  /** The third key of an id other than the placed one does not change. */
  lemma ContainingCountStable(parents: map<string, set<string>>, id: string, x: string)
    requires Fold(x) != Fold(id)
    ensures ContainingCount(Placed(parents, id), x) == ContainingCount(parents, x)
  {
    var after := Placed(parents, id);
    assert (set k | k in after && Fold(x) in after[k]) == (set k | k in parents && Fold(x) in parents[k]);
  }

  /** Once placed, an id is in no parent set. */
  lemma ContainingCountOfPlaced(parents: map<string, set<string>>, id: string)
    ensures ContainingCount(Placed(parents, id), id) == 0
  {
    var after := Placed(parents, id);
    assert (set k | k in after && Fold(id) in after[k]) == {};
  }

  /** The chosen id has the lowest priority value among the remaining ids. */
  lemma BestHasLeastPriority(ids: seq<string>, parents: map<string, set<string>>, context: PackageResolverContext, k: nat)
    requires |ids| > 0 && Indexed(ids, parents) && k < |ids|
    ensures Priority(Best(ids, parents, context), context) <= Priority(ids[k], context)
  {
    assert KeyLeq(KeyOf(Best(ids, parents, context), parents, context), KeyOf(ids[k], parents, context));
  }

  /**
   * Among ids of equal priority an id with remaining parents is never chosen
   * while one without parents is left.
   */
  lemma NoBlockedIdBeforeFreeOne(ids: seq<string>, parents: map<string, set<string>>, context: PackageResolverContext, k: nat)
    requires |ids| > 0 && Indexed(ids, parents) && k < |ids|
    requires Priority(ids[k], context) == Priority(Best(ids, parents, context), context)
    requires |parents[Fold(ids[k])]| == 0
    ensures |parents[Fold(Best(ids, parents, context))]| == 0
  {
    assert KeyLeq(KeyOf(Best(ids, parents, context), parents, context), KeyOf(ids[k], parents, context));
  }

  /** Two case-distinct ids never tie on the key. */
  lemma KeysDistinct(ids: seq<string>, parents: map<string, set<string>>, context: PackageResolverContext, a: nat, b: nat)
    requires Indexed(ids, parents) && DistinctIgnoreCase(ids) && a < |ids| && b < |ids|
    requires KeyOf(ids[a], parents, context) == KeyOf(ids[b], parents, context)
    ensures a == b
  {
    SameFoldSameIndex(ids, a, b);
  }

  /** Case-distinct ids with the same elements have the same least id. */
  lemma BestOrderIndependent(ids: seq<string>, other: seq<string>, parents: map<string, set<string>>,
                             context: PackageResolverContext)
    requires |ids| > 0 && |other| > 0 && multiset(ids) == multiset(other)
    requires Indexed(ids, parents) && Indexed(other, parents) && DistinctIgnoreCase(ids)
    ensures Best(ids, parents, context) == Best(other, parents, context)
  {
    var b, c := Best(ids, parents, context), Best(other, parents, context);
    assert b in multiset(other) && c in multiset(ids);
    var i :| 0 <= i < |ids| && ids[i] == b;
    var j :| 0 <= j < |ids| && ids[j] == c;
    var i' :| 0 <= i' < |other| && other[i'] == b;
    assert KeyLeq(KeyOf(b, parents, context), KeyOf(c, parents, context));
    assert KeyLeq(KeyOf(c, parents, context), KeyOf(other[i'], parents, context));
    KeyLeqAntisymmetric(KeyOf(b, parents, context), KeyOf(c, parents, context));
    KeysDistinct(ids, parents, context, i, j);
  }

  /** Removing an element keeps the ids case-distinct. */
  lemma DistinctRemoveFirst(ids: seq<string>, x: string)
    requires DistinctIgnoreCase(ids)
    ensures DistinctIgnoreCase(RemoveFirst(ids, x))
  {
    if x in ids {
      var p :| 0 <= p < |ids| && ids[p] == x;
      forall k | 0 <= k < p ensures ids[k] != ids[p] {
        assert Fold(ids[k]) != Fold(ids[p]);
      }
      RemoveFirstAt(ids, p);
      DistinctRemoveAt(ids, p);
    }
  }

  /**
   * The emitted order depends only on which ids remain, not on the order in
   * which they are listed.
   */
  lemma {:induction false} FlattenOrderIndependent(ids: seq<string>, other: seq<string>,
                                                   parents: map<string, set<string>>, context: PackageResolverContext)
    requires multiset(ids) == multiset(other)
    requires Indexed(ids, parents) && Indexed(other, parents) && DistinctIgnoreCase(ids)
    ensures Flatten(ids, parents, context) == Flatten(other, parents, context)
    decreases |ids|
  {
    if ids != [] {
      assert |other| == |ids| by {
        assert |multiset(other)| == |multiset(ids)|;
      }
      var next := Best(ids, parents, context);
      BestOrderIndependent(ids, other, parents, context);
      FlattenStep(ids, parents, context);
      FlattenStep(other, parents, context);
      RemoveFirstMultiset(ids, next);
      RemoveFirstMultiset(other, next);
      DistinctRemoveFirst(ids, next);
      FlattenOrderIndependent(RemoveFirst(ids, next), RemoveFirst(other, next), Placed(parents, next), context);
    } else {
      assert other == [] by {
        assert |multiset(other)| == 0;
      }
    }
  }

  /** When one id's key is below every other, that id is the one chosen. */
  lemma BestIsUniqueLeast(ids: seq<string>, parents: map<string, set<string>>, context: PackageResolverContext, i: nat)
    requires Indexed(ids, parents) && DistinctIgnoreCase(ids) && i < |ids|
    requires forall k :: 0 <= k < |ids| ==> KeyLeq(KeyOf(ids[i], parents, context), KeyOf(ids[k], parents, context))
    ensures Best(ids, parents, context) == ids[i]
  {
    var b := Best(ids, parents, context);
    var j :| 0 <= j < |ids| && ids[j] == b;
    assert KeyLeq(KeyOf(b, parents, context), KeyOf(ids[i], parents, context));
    KeyLeqAntisymmetric(KeyOf(b, parents, context), KeyOf(ids[i], parents, context));
    KeysDistinct(ids, parents, context, i, j);
  }

  /** A sequence without repeated elements holds each value at most once. */
  lemma {:induction false} CountAtMostOne<T>(xs: seq<T>, x: T)
    requires forall i, j :: 0 <= i < j < |xs| ==> xs[i] != xs[j]
    ensures multiset(xs)[x] <= 1
  {
    if xs != [] {
      var rest := xs[1..];
      assert xs == [xs[0]] + rest;
      forall i, j | 0 <= i < j < |rest| ensures rest[i] != rest[j] {
        assert rest[i] == xs[i + 1] && rest[j] == xs[j + 1];
      }
      CountAtMostOne(rest, x);
      if x == xs[0] {
        forall k | 0 <= k < |rest| ensures rest[k] != x {
          assert rest[k] == xs[k + 1];
        }
        assert x !in multiset(rest);
      }
    }
  }

  /** A value at two positions is held at least twice. */
  lemma RepeatCountsTwice<T>(xs: seq<T>, i: nat, j: nat)
    requires i < j < |xs| && xs[i] == xs[j]
    ensures multiset(xs)[xs[i]] >= 2
  {
    assert xs == xs[..j] + [xs[j]] + xs[j + 1..];
    assert xs[..j][i] == xs[i];
    assert xs[i] in multiset(xs[..j]);
  }

  /** Case-distinct first ids make the groups themselves pairwise different. */
  lemma SortableGroupsDistinct(groups: seq<Group>)
    requires Sortable(groups)
    ensures forall i, j :: 0 <= i < j < |groups| ==> groups[i] != groups[j]
  {
    forall i, j | 0 <= i < j < |groups| ensures groups[i] != groups[j] {
      assert Fold(FirstIds(groups)[i]) != Fold(FirstIds(groups)[j]);
    }
  }

  /** Reordering the groups keeps them sortable. */
  lemma PermutedSortable(groups: seq<Group>, other: seq<Group>)
    requires Sortable(groups) && multiset(groups) == multiset(other)
    ensures Sortable(other)
  {
    forall k | 0 <= k < |other| ensures |other[k]| > 0 {
      assert other[k] in multiset(groups);
    }
    var ids := FirstIds(other);
    forall i, j | 0 <= i < j < |other| ensures Fold(ids[i]) != Fold(ids[j]) {
      if other[i] == other[j] {
        RepeatCountsTwice(other, i, j);
        SortableGroupsDistinct(groups);
        CountAtMostOne(groups, other[i]);
      } else {
        assert other[i] in multiset(groups) && other[j] in multiset(groups);
        var a :| 0 <= a < |groups| && groups[a] == other[i];
        var b :| 0 <= b < |groups| && groups[b] == other[j];
        assert FirstIds(groups)[a] == ids[i] && FirstIds(groups)[b] == ids[j];
        if a < b {
          assert Fold(FirstIds(groups)[a]) != Fold(FirstIds(groups)[b]);
        } else {
          assert Fold(FirstIds(groups)[b]) != Fold(FirstIds(groups)[a]);
        }
      }
    }
  }

  /** The parents of the id `key`, described by the groups present rather than by position. */
  ghost function GroupParents(groups: seq<Group>, key: string): set<string>
    requires NonEmptyGroups(groups)
  {
    set h: Group | h in groups && Fold(h[0].id) != key && key in DependencyIds(h) :: Fold(h[0].id)
  }

  /** The parent set of a group is the parent set of its folded id among the groups present. */
  lemma ParentsOfByMembers(groups: seq<Group>, i: nat)
    requires Sortable(groups) && i < |groups|
    ensures ParentsOf(FirstIds(groups), DependencySets(groups), i) == GroupParents(groups, Fold(groups[i][0].id))
  {
    var ids, deps := FirstIds(groups), DependencySets(groups);
    var key := Fold(groups[i][0].id);
    forall x | x in ParentsOf(ids, deps, i) ensures x in GroupParents(groups, key) {
      var j :| 0 <= j < |ids| && j != i && Fold(ids[i]) in deps[j] && x == Fold(ids[j]);
      if i < j {
        assert Fold(ids[i]) != Fold(ids[j]);
      } else {
        assert Fold(ids[j]) != Fold(ids[i]);
      }
      assert groups[j] in groups;
    }
    forall x | x in GroupParents(groups, key) ensures x in ParentsOf(ids, deps, i) {
      var h: Group :| h in groups && Fold(h[0].id) != key && key in DependencyIds(h) && x == Fold(h[0].id);
      var j :| 0 <= j < |groups| && groups[j] == h;
      assert j != i && Fold(ids[i]) in deps[j] && x == Fold(ids[j]);
    }
  }

  /** The same groups give the same parents for every key. */
  lemma GroupParentsByMembers(groups: seq<Group>, other: seq<Group>, key: string)
    requires NonEmptyGroups(groups) && NonEmptyGroups(other)
    requires forall h :: h in groups <==> h in other
    ensures GroupParents(groups, key) == GroupParents(other, key)
  {
  }

  /** A key of one initial parent map is a key of the other, with the same parent set. */
  lemma ParentsAgreeAt(groups: seq<Group>, other: seq<Group>, i: nat)
    requires Sortable(groups) && Sortable(other) && i < |groups|
    requires forall h :: h in groups <==> h in other
    ensures Fold(FirstIds(groups)[i]) in InitialParents(FirstIds(other), DependencySets(other))
    ensures InitialParents(FirstIds(other), DependencySets(other))[Fold(FirstIds(groups)[i])] ==
            InitialParents(FirstIds(groups), DependencySets(groups))[Fold(FirstIds(groups)[i])]
  {
    assert groups[i] in groups;
    var j :| 0 <= j < |other| && other[j] == groups[i];
    ParentsOfByMembers(groups, i);
    ParentsOfByMembers(other, j);
    GroupParentsByMembers(groups, other, Fold(groups[i][0].id));
    assert FirstIds(other)[j] == FirstIds(groups)[i];
  }

  /** Two maps with the same keys and the same value at every key are equal. */
  lemma SameEntries(p: map<string, set<string>>, q: map<string, set<string>>)
    requires forall k :: k in p ==> k in q && q[k] == p[k]
    requires forall k :: k in q ==> k in p
    ensures p == q
  {
  }

  /** The initial parent map depends only on which groups are present. */
  lemma InitialParentsByMembers(groups: seq<Group>, other: seq<Group>)
    requires Sortable(groups) && Sortable(other)
    requires forall h :: h in groups <==> h in other
    ensures InitialParents(FirstIds(groups), DependencySets(groups)) ==
            InitialParents(FirstIds(other), DependencySets(other))
  {
    var p := InitialParents(FirstIds(groups), DependencySets(groups));
    var q := InitialParents(FirstIds(other), DependencySets(other));
    forall k | k in p ensures k in q && q[k] == p[k] {
      var i :| 0 <= i < |groups| && Fold(FirstIds(groups)[i]) == k;
      ParentsAgreeAt(groups, other, i);
    }
    forall k | k in q ensures k in p {
      var j :| 0 <= j < |other| && Fold(FirstIds(other)[j]) == k;
      ParentsAgreeAt(other, groups, j);
    }
    SameEntries(p, q);
  }

  /** Reordering the groups reorders their first ids. */
  lemma PermutedFirstIds(groups: seq<Group>, other: seq<Group>)
    requires Sortable(groups) && Sortable(other) && multiset(groups) == multiset(other)
    ensures multiset(FirstIds(groups)) == multiset(FirstIds(other))
  {
    var a, b := FirstIds(groups), FirstIds(other);
    forall i, j | 0 <= i < j < |a| ensures a[i] != a[j] {
      assert Fold(a[i]) != Fold(a[j]);
    }
    forall i, j | 0 <= i < j < |b| ensures b[i] != b[j] {
      assert Fold(b[i]) != Fold(b[j]);
    }
    forall x ensures multiset(a)[x] == multiset(b)[x] {
      CountAtMostOne(a, x);
      CountAtMostOne(b, x);
      if x in a {
        var i :| 0 <= i < |a| && a[i] == x;
        assert groups[i] in multiset(other);
        var j :| 0 <= j < |other| && other[j] == groups[i];
        assert b[j] == x;
      }
      if x in b {
        var j :| 0 <= j < |b| && b[j] == x;
        assert other[j] in multiset(groups);
        var i :| 0 <= i < |groups| && groups[i] == other[j];
        assert a[i] == x;
      }
    }
  }

  /**
   * The order `TreeFlatten` returns does not depend on the order of its input
   * groups: any permutation of sortable groups is sortable and sorts to the
   * same id order.
   */
  lemma OrderPermutationInvariant(groups: seq<Group>, other: seq<Group>, context: PackageResolverContext)
    requires Sortable(groups) && multiset(groups) == multiset(other)
    ensures Sortable(other) && Order(groups, context) == Order(other, context)
  {
    PermutedSortable(groups, other);
    forall h ensures h in groups <==> h in other {
      assert h in groups <==> h in multiset(groups);
      assert h in other <==> h in multiset(other);
    }
    InitialParentsByMembers(groups, other);
    PermutedFirstIds(groups, other);
    var parents := InitialParents(FirstIds(groups), DependencySets(groups));
    InitialIndexed(FirstIds(groups), DependencySets(groups));
    InitialIndexed(FirstIds(other), DependencySets(other));
    FlattenOrderIndependent(FirstIds(groups), FirstIds(other), parents, context);
  }

  // Dependency order. The parent relation has no cycle exactly when some rank
  // puts every parent strictly below its child; with equal priorities the loop
  // then emits every id after all of its parents (the groups that depend on it).

  /** Every parent ranks strictly below the id it is a parent of. */
  ghost predicate Ranked(parents: map<string, set<string>>, rank: string -> nat) {
    forall k, p :: k in parents && p in parents[k] ==> rank(p) < rank(k)
  }

  /** Every parent of a listed id is itself a listed id. */
  ghost predicate ParentsListed(ids: seq<string>, parents: map<string, set<string>>)
    requires Indexed(ids, parents)
  {
    forall k, p :: 0 <= k < |ids| && p in parents[Fold(ids[k])] ==> exists m :: 0 <= m < |ids| && Fold(ids[m]) == p
  }

  /** All ids have the same priority. */
  predicate SamePriority(ids: seq<string>, context: PackageResolverContext) {
    forall a, b :: 0 <= a < |ids| && 0 <= b < |ids| ==> Priority(ids[a], context) == Priority(ids[b], context)
  }

  /** No id is emitted before one of its parents. */
  ghost predicate ParentsFirst(order: seq<string>, parents: map<string, set<string>>) {
    forall i, j :: 0 <= i < j < |order| && Fold(order[i]) in parents ==> Fold(order[j]) !in parents[Fold(order[i])]
  }

  /** A position of least rank. */
  lemma {:induction false} LeastRank(ids: seq<string>, rank: string -> nat) returns (m: nat)
    requires |ids| > 0
    ensures m < |ids| && forall k :: 0 <= k < |ids| ==> rank(Fold(ids[m])) <= rank(Fold(ids[k]))
    decreases |ids|
  {
    if |ids| == 1 {
      m := 0;
    } else {
      var init := ids[..|ids| - 1];
      var n := LeastRank(init, rank);
      assert forall k :: 0 <= k < |init| ==> init[k] == ids[k];
      m := if rank(Fold(ids[|ids| - 1])) < rank(Fold(ids[n])) then |ids| - 1 else n;
    }
  }

  /** The id of least rank has no parents left. */
  lemma SourceExists(ids: seq<string>, parents: map<string, set<string>>, rank: string -> nat) returns (m: nat)
    requires |ids| > 0 && Indexed(ids, parents) && ParentsListed(ids, parents) && Ranked(parents, rank)
    ensures m < |ids| && |parents[Fold(ids[m])]| == 0
  {
    m := LeastRank(ids, rank);
    if exists p :: p in parents[Fold(ids[m])] {
      assert false;
    }
  }

  /** An id left after removing `b` differs from `b` ignoring case. */
  lemma RestFoldsDiffer(ids: seq<string>, b: string, y: string)
    requires DistinctIgnoreCase(ids) && b in ids && y in RemoveFirst(ids, b)
    ensures Fold(y) != Fold(b)
  {
    var p :| 0 <= p < |ids| && ids[p] == b;
    forall k | 0 <= k < p ensures ids[k] != ids[p] {
      assert Fold(ids[k]) != Fold(ids[p]);
    }
    RemoveFirstAt(ids, p);
    var m :| 0 <= m < |ids| - 1 && (ids[..p] + ids[p + 1..])[m] == y;
    if m < p {
      assert y == ids[m] && Fold(ids[m]) != Fold(ids[p]);
    } else {
      assert y == ids[m + 1] && Fold(ids[p]) != Fold(ids[m + 1]);
    }
  }

  /** An id left after removing `b` was listed before. */
  lemma RestWithin(ids: seq<string>, b: string, y: string) returns (k: nat)
    requires y in RemoveFirst(ids, b)
    ensures k < |ids| && ids[k] == y
  {
    RemoveFirstMultiset(ids, b);
    assert y in multiset(RemoveFirst(ids, b));
    assert y in multiset(ids);
    k :| 0 <= k < |ids| && ids[k] == y;
  }

  /** After a round the remaining parents are still listed, ranked and of one priority. */
  lemma RoundKeepsRanked(ids: seq<string>, parents: map<string, set<string>>, context: PackageResolverContext,
                         rank: string -> nat, b: string)
    requires Indexed(ids, parents) && DistinctIgnoreCase(ids) && b in ids
    requires ParentsListed(ids, parents) && Ranked(parents, rank) && SamePriority(ids, context)
    ensures Indexed(RemoveFirst(ids, b), Placed(parents, b))
    ensures ParentsListed(RemoveFirst(ids, b), Placed(parents, b))
    ensures Ranked(Placed(parents, b), rank)
    ensures SamePriority(RemoveFirst(ids, b), context)
  {
    var rest, after := RemoveFirst(ids, b), Placed(parents, b);
    RemainingIndexed(ids, parents, b);
    RemoveFirstMultiset(ids, b);
    forall k, p | 0 <= k < |rest| && p in after[Fold(rest[k])]
      ensures exists m :: 0 <= m < |rest| && Fold(rest[m]) == p
    {
      var k' := RestWithin(ids, b, rest[k]);
      var m :| 0 <= m < |ids| && Fold(ids[m]) == p;
      assert ids[m] != b;
      assert ids[m] in multiset(ids);
      assert ids[m] in multiset(rest);
      var m' :| 0 <= m' < |rest| && rest[m'] == ids[m];
    }
    forall x, y | 0 <= x < |rest| && 0 <= y < |rest|
      ensures Priority(rest[x], context) == Priority(rest[y], context)
    {
      var x' := RestWithin(ids, b, rest[x]);
      var y' := RestWithin(ids, b, rest[y]);
    }
  }

  /**
   * With one priority for all ids and no cycle among the parents, the loop
   * emits every id after all of its parents.
   */
  lemma {:induction false} FlattenParentsFirst(ids: seq<string>, parents: map<string, set<string>>,
                                               context: PackageResolverContext, rank: string -> nat)
    requires Indexed(ids, parents) && DistinctIgnoreCase(ids)
    requires ParentsListed(ids, parents) && Ranked(parents, rank) && SamePriority(ids, context)
    ensures ParentsFirst(Flatten(ids, parents, context), parents)
    decreases |ids|
  {
    if ids != [] {
      var b := Best(ids, parents, context);
      var rest, after := RemoveFirst(ids, b), Placed(parents, b);
      FlattenStep(ids, parents, context);
      var m := SourceExists(ids, parents, rank);
      var bi :| 0 <= bi < |ids| && ids[bi] == b;
      assert Priority(ids[m], context) == Priority(ids[bi], context);
      NoBlockedIdBeforeFreeOne(ids, parents, context, m);
      RoundKeepsRanked(ids, parents, context, rank, b);
      DistinctRemoveFirst(ids, b);
      FlattenParentsFirst(rest, after, context, rank);
      var tail := Flatten(rest, after, context);
      forall y | y in tail ensures Fold(y) != Fold(b) {
        assert y in multiset(tail);
        RestFoldsDiffer(ids, b, y);
      }
      PrependParentless(b, tail, parents);
    }
  }

  /** Emitting a parentless `b` ahead of a tail in dependency order keeps the order. */
  lemma PrependParentless(b: string, tail: seq<string>, parents: map<string, set<string>>)
    requires Fold(b) in parents && |parents[Fold(b)]| == 0
    requires ParentsFirst(tail, Placed(parents, b))
    requires forall y :: y in tail ==> Fold(y) != Fold(b)
    ensures ParentsFirst([b] + tail, parents)
  {
    var order := [b] + tail;
    forall i, j | 0 <= i < j < |order| && Fold(order[i]) in parents
      ensures Fold(order[j]) !in parents[Fold(order[i])]
    {
      if i > 0 {
        assert order[i] == tail[i - 1] && order[j] == tail[j - 1];
        assert tail[j - 1] in tail;
      }
    }
  }

  /**
   * The order `TreeFlatten` returns lists every group after all the groups
   * that depend on it, when all ids share one priority and the dependencies
   * between the groups have no cycle.
   */
  lemma OrderParentsFirst(groups: seq<Group>, context: PackageResolverContext, rank: string -> nat)
    requires Sortable(groups) && SamePriority(FirstIds(groups), context)
    requires Ranked(InitialParents(FirstIds(groups), DependencySets(groups)), rank)
    ensures ParentsFirst(Order(groups, context), InitialParents(FirstIds(groups), DependencySets(groups)))
  {
    var ids, deps := FirstIds(groups), DependencySets(groups);
    var parents := InitialParents(ids, deps);
    InitialIndexed(ids, deps);
    forall k, p | 0 <= k < |ids| && p in parents[Fold(ids[k])]
      ensures exists m :: 0 <= m < |ids| && Fold(ids[m]) == p
    {
      assert p in ParentsOf(ids, deps, k);
    }
    FlattenParentsFirst(ids, parents, context, rank);
  }

  const InstalledB := PackageResolverContext([], ["B"])
  const AOverB: map<string, set<string>> := map["A" := {}, "B" := {"A"}]

  /**
   * Priority comes before the dependency edges: when B is installed and A
   * depends on it, B (priority 0) is chosen while its parent A (priority 2) is
   * still waiting.
   */
  lemma InstalledBeforeItsParent()
    ensures Fold("A") == "A" && Fold("B") == "B"
    ensures Indexed(["A", "B"], AOverB)
    ensures "A" in AOverB[Fold("B")]
    ensures Best(["A", "B"], AOverB, InstalledB) == "B"
  {
    FoldOfUpper("A");
    FoldOfUpper("B");
    assert Priority("B", InstalledB) == 0 by {
      assert "B" in InstalledB.installedIds;
    }
    assert Priority("A", InstalledB) == 2 by {
      assert !ContainsIgnoreCase(InstalledB.installedIds, "A") by {
        assert InstalledB.installedIds == ["B"];
      }
    }
    var best := Best(["A", "B"], AOverB, InstalledB);
    assert best in ["A", "B"];
    assert KeyLeq(KeyOf(best, AOverB, InstalledB), KeyOf("B", AOverB, InstalledB)) by {
      assert ["A", "B"][1] == "B";
    }
  }

  // The example of the documentation comment (src/NuGet.Resolver/ResolverInputSort.cs:11-25):
  // A depends on B, B and C depend on D, nothing is a target or installed.

  const NoContext := PackageResolverContext([], [])

  const Round1: map<string, set<string>> := map["A" := {}, "B" := {"A"}, "C" := {}, "D" := {"B", "C"}]
  const Round2: map<string, set<string>> := map["A" := {}, "B" := {}, "C" := {}, "D" := {"B", "C"}]
  const Round3: map<string, set<string>> := map["A" := {}, "B" := {}, "C" := {}, "D" := {"C"}]
  const Round4: map<string, set<string>> := map["A" := {}, "B" := {}, "C" := {}, "D" := {}]

  function ExampleGroups(v: NuGetVersion, toB: PackageDependency, toD: PackageDependency): seq<Group> {
    [[ResolverPackage("A", v, [toB])], [ResolverPackage("B", v, [toD])],
     [ResolverPackage("C", v, [toD])], [ResolverPackage("D", v, [])]]
  }

  lemma FoldedLetters()
    ensures Fold("A") == "A" && Fold("B") == "B" && Fold("C") == "C" && Fold("D") == "D"
  {
    FoldOfUpper("A");
    FoldOfUpper("B");
    FoldOfUpper("C");
    FoldOfUpper("D");
  }

  lemma ExampleDependencies(v: NuGetVersion, toB: PackageDependency, toD: PackageDependency)
    requires toB.id == "B" && toD.id == "D"
    ensures DependencySets(ExampleGroups(v, toB, toD)) == ExampleDeps
  {
    var groups := ExampleGroups(v, toB, toD);
    FoldedLetters();
    assert DependencyIds(groups[0]) == {"B"};
    assert DependencyIds(groups[1]) == {"D"};
    assert DependencyIds(groups[2]) == {"D"};
    assert DependencyIds(groups[3]) == {};
  }

  const ExampleIds: seq<string> := ["A", "B", "C", "D"]
  const ExampleDeps: seq<set<string>> := [{"B"}, {"D"}, {"D"}, {}]

  lemma ExampleDistinct()
    ensures DistinctIgnoreCase(ExampleIds)
  {
    FoldedLetters();
  }

  lemma ExampleParentsOfA()
    ensures ParentsOf(ExampleIds, ExampleDeps, 0) == {}
  {
    FoldedLetters();
  }

  lemma ExampleParentsOfB()
    ensures ParentsOf(ExampleIds, ExampleDeps, 1) == {"A"}
  {
    FoldedLetters();
    assert Fold(ExampleIds[1]) in ExampleDeps[0];
  }

  lemma ExampleParentsOfC()
    ensures ParentsOf(ExampleIds, ExampleDeps, 2) == {}
  {
    FoldedLetters();
  }

  lemma ExampleParentsOfD()
    ensures ParentsOf(ExampleIds, ExampleDeps, 3) == {"B", "C"}
  {
    FoldedLetters();
    assert Fold(ExampleIds[3]) in ExampleDeps[1];
    assert Fold(ExampleIds[3]) in ExampleDeps[2];
  }

  lemma ExampleKeysWithin(k: string)
    requires DistinctIgnoreCase(ExampleIds) && k in InitialParents(ExampleIds, ExampleDeps)
    ensures k in {"A", "B", "C", "D"}
  {
    var i :| 0 <= i < 4 && Fold(ExampleIds[i]) == k;
    FoldedLetters();
  }

  lemma ExampleKeysCover()
    requires DistinctIgnoreCase(ExampleIds)
    ensures var parents := InitialParents(ExampleIds, ExampleDeps);
      "A" in parents && "B" in parents && "C" in parents && "D" in parents
  {
    FoldedLetters();
    assert Fold(ExampleIds[0]) == "A" && Fold(ExampleIds[1]) == "B";
    assert Fold(ExampleIds[2]) == "C" && Fold(ExampleIds[3]) == "D";
  }

  lemma ExampleParentKeys()
    requires DistinctIgnoreCase(ExampleIds)
    ensures InitialParents(ExampleIds, ExampleDeps).Keys == {"A", "B", "C", "D"}
  {
    var keys := InitialParents(ExampleIds, ExampleDeps).Keys;
    forall k | k in keys ensures k in {"A", "B", "C", "D"} {
      ExampleKeysWithin(k);
    }
    ExampleKeysCover();
    ExactKeys(keys);
  }

  lemma ExactKeys(keys: set<string>)
    requires forall k :: k in keys ==> k in {"A", "B", "C", "D"}
    requires "A" in keys && "B" in keys && "C" in keys && "D" in keys
    ensures keys == {"A", "B", "C", "D"}
  {
  }

  lemma ExampleParentValues()
    requires DistinctIgnoreCase(ExampleIds)
    ensures var parents := InitialParents(ExampleIds, ExampleDeps);
      "A" in parents && "B" in parents && "C" in parents && "D" in parents &&
      parents["A"] == {} && parents["B"] == {"A"} && parents["C"] == {} && parents["D"] == {"B", "C"}
  {
    FoldedLetters();
    ExampleParentsOfA();
    ExampleParentsOfB();
    ExampleParentsOfC();
    ExampleParentsOfD();
    assert Fold(ExampleIds[0]) == "A" && Fold(ExampleIds[1]) == "B";
    assert Fold(ExampleIds[2]) == "C" && Fold(ExampleIds[3]) == "D";
  }

  lemma ExampleParentSets()
    ensures DistinctIgnoreCase(ExampleIds)
    ensures InitialParents(ExampleIds, ExampleDeps) == Round1
  {
    ExampleDistinct();
    ExampleParentKeys();
    ExampleParentValues();
    ExactParents(InitialParents(ExampleIds, ExampleDeps), {}, {"A"}, {}, {"B", "C"});
  }

  /** A parent map over the example's four ids, given by its four sets. */
  lemma ExactParents(parents: map<string, set<string>>, a: set<string>, b: set<string>, c: set<string>, d: set<string>)
    requires parents.Keys == {"A", "B", "C", "D"}
    requires parents["A"] == a && parents["B"] == b && parents["C"] == c && parents["D"] == d
    ensures parents == map["A" := a, "B" := b, "C" := c, "D" := d]
  {
  }

  /** The example's ids, element by element (a literal list here would let the solver unfold `Flatten` unboundedly). */
  predicate IsExampleIds(ids: seq<string>) {
    |ids| == 4 && ids[0] == "A" && ids[1] == "B" && ids[2] == "C" && ids[3] == "D"
  }

  lemma ExampleParents(v: NuGetVersion, toB: PackageDependency, toD: PackageDependency)
    requires toB.id == "B" && toD.id == "D"
    ensures Sortable(ExampleGroups(v, toB, toD))
    ensures IsExampleIds(FirstIds(ExampleGroups(v, toB, toD)))
    ensures InitialParents(FirstIds(ExampleGroups(v, toB, toD)), DependencySets(ExampleGroups(v, toB, toD))) == Round1
  {
    ExampleFirstIds(v, toB, toD);
    ExampleDependencies(v, toB, toD);
    ExampleParentSets();
  }

  lemma ExampleFirstIds(v: NuGetVersion, toB: PackageDependency, toD: PackageDependency)
    ensures NonEmptyGroups(ExampleGroups(v, toB, toD))
    ensures FirstIds(ExampleGroups(v, toB, toD)) == ExampleIds
  {
    var groups := ExampleGroups(v, toB, toD);
    assert NonEmptyGroups(groups);
  }

  /** The third key is 1 when exactly one parent set holds the id. */
  lemma ContainingCountOne(parents: map<string, set<string>>, x: string, holder: string)
    requires holder in parents && Fold(x) in parents[holder]
    requires forall k :: k in parents && k != holder ==> Fold(x) !in parents[k]
    ensures ContainingCount(parents, x) == 1
  {
    assert (set k | k in parents && Fold(x) in parents[k]) == {holder};
  }

  lemma ExampleNoPriority(x: string)
    ensures Priority(x, NoContext) == 2
  {
  }

  lemma ExampleKeys1()
    ensures Fold("A") == "A" && Fold("B") == "B" && Fold("C") == "C" && Fold("D") == "D"
    ensures KeyOf("A", Round1, NoContext) == SortKey(2, 0, 1, "A")
    ensures KeyOf("B", Round1, NoContext).priority == 2 && KeyOf("B", Round1, NoContext).parentCount == 1
    ensures KeyOf("C", Round1, NoContext) == SortKey(2, 0, 1, "C")
    ensures KeyOf("D", Round1, NoContext).priority == 2 && KeyOf("D", Round1, NoContext).parentCount == 2
  {
    FoldedLetters();
    ExampleNoPriority("A");
    ExampleNoPriority("B");
    ExampleNoPriority("C");
    ExampleNoPriority("D");
    ContainingCountOne(Round1, "A", "B");
    ContainingCountOne(Round1, "C", "D");
  }

  lemma ExampleBest1(ids: seq<string>)
    requires IsExampleIds(ids)
    ensures Indexed(ids, Round1) && Best(ids, Round1, NoContext) == "A"
  {
    ExampleKeys1();
    assert DistinctIgnoreCase(ids);
    KeyLeqReflexive(KeyOf("A", Round1, NoContext));
    assert OrdinalLeq("A", "C");
    BestIsUniqueLeast(ids, Round1, NoContext, 0);
  }

  lemma ExamplePlaced1()
    ensures Placed(Round1, "A") == Round2
  {
    FoldedLetters();
    var after := Placed(Round1, "A");
    assert after.Keys == {"A", "B", "C", "D"};
    ExactParents(after, {}, {}, {}, {"B", "C"});
  }

  lemma ExampleKeys2()
    ensures Fold("A") == "A" && Fold("B") == "B" && Fold("C") == "C" && Fold("D") == "D"
    ensures KeyOf("B", Round2, NoContext) == SortKey(2, 0, 1, "B")
    ensures KeyOf("C", Round2, NoContext) == SortKey(2, 0, 1, "C")
    ensures KeyOf("D", Round2, NoContext).priority == 2 && KeyOf("D", Round2, NoContext).parentCount == 2
  {
    FoldedLetters();
    ExampleNoPriority("B");
    ExampleNoPriority("C");
    ExampleNoPriority("D");
    ContainingCountOne(Round2, "B", "D");
    ContainingCountOne(Round2, "C", "D");
  }

  lemma ExampleBest2(ids: seq<string>)
    requires |ids| == 3 && ids[0] == "B" && ids[1] == "C" && ids[2] == "D"
    ensures Indexed(ids, Round2) && Best(ids, Round2, NoContext) == "B"
  {
    ExampleKeys2();
    assert DistinctIgnoreCase(ids);
    KeyLeqReflexive(KeyOf("B", Round2, NoContext));
    assert OrdinalLeq("B", "C");
    BestIsUniqueLeast(ids, Round2, NoContext, 0);
  }

  lemma ExamplePlaced2()
    ensures Placed(Round2, "B") == Round3
  {
    FoldedLetters();
    var after := Placed(Round2, "B");
    assert after.Keys == {"A", "B", "C", "D"};
    ExactParents(after, {}, {}, {}, {"C"});
  }

  lemma ExampleKeys3()
    ensures Fold("A") == "A" && Fold("B") == "B" && Fold("C") == "C" && Fold("D") == "D"
    ensures KeyOf("C", Round3, NoContext).priority == 2 && KeyOf("C", Round3, NoContext).parentCount == 0
    ensures KeyOf("D", Round3, NoContext).priority == 2 && KeyOf("D", Round3, NoContext).parentCount == 1
  {
    FoldedLetters();
    ExampleNoPriority("C");
    ExampleNoPriority("D");
  }

  lemma ExampleBest3(ids: seq<string>)
    requires |ids| == 2 && ids[0] == "C" && ids[1] == "D"
    ensures Indexed(ids, Round3) && Best(ids, Round3, NoContext) == "C"
  {
    ExampleKeys3();
    assert DistinctIgnoreCase(ids);
    KeyLeqReflexive(KeyOf("C", Round3, NoContext));
    BestIsUniqueLeast(ids, Round3, NoContext, 0);
  }

  lemma ExamplePlaced3()
    ensures Placed(Round3, "C") == Round4
  {
    FoldedLetters();
    var after := Placed(Round3, "C");
    assert after.Keys == {"A", "B", "C", "D"};
    ExactParents(after, {}, {}, {}, {});
  }

  lemma ExamplePlaced4()
    ensures Placed(Round4, "D") == Round4
  {
    FoldedLetters();
    var after := Placed(Round4, "D");
    assert after.Keys == {"A", "B", "C", "D"};
    ExactParents(after, {}, {}, {}, {});
  }

  /** `Order` with the initial parent map named. */
  lemma OrderIs(groups: seq<Group>, context: PackageResolverContext, parents: map<string, set<string>>)
    requires Sortable(groups) && InitialParents(FirstIds(groups), DependencySets(groups)) == parents
    ensures Indexed(FirstIds(groups), parents)
    ensures Order(groups, context) == Flatten(FirstIds(groups), parents, context)
  {
    InitialIndexed(FirstIds(groups), DependencySets(groups));
  }

  /** One round of `Flatten` with its chosen id, remaining ids and parent sets named. */
  lemma StepTo(ids: seq<string>, parents: map<string, set<string>>, context: PackageResolverContext,
               next: string, rest: seq<string>, after: map<string, set<string>>)
    requires |ids| > 0 && Indexed(ids, parents) && Best(ids, parents, context) == next
    requires RemoveFirst(ids, next) == rest && Placed(parents, next) == after
    ensures Indexed(rest, after)
    ensures Flatten(ids, parents, context) == [next] + Flatten(rest, after, context)
  {
    FlattenStep(ids, parents, context);
  }

  lemma ExampleFlatten4(ids: seq<string>)
    requires |ids| == 1 && ids[0] == "D"
    ensures Indexed(ids, Round4) && Flatten(ids, Round4, NoContext) == ["D"]
  {
    assert Indexed(ids, Round4) && Best(ids, Round4, NoContext) == "D" by {
      FoldedLetters();
    }
    ExamplePlaced4();
    StepTo(ids, Round4, NoContext, "D", ids[1..], Round4);
  }

  lemma ExampleFlatten3(ids: seq<string>)
    requires |ids| == 2 && ids[0] == "C" && ids[1] == "D"
    ensures Indexed(ids, Round3) && Flatten(ids, Round3, NoContext) == ["C", "D"]
  {
    ExampleBest3(ids);
    ExamplePlaced3();
    StepTo(ids, Round3, NoContext, "C", ids[1..], Round4);
    ExampleFlatten4(ids[1..]);
  }

  lemma ExampleFlatten2(ids: seq<string>)
    requires |ids| == 3 && ids[0] == "B" && ids[1] == "C" && ids[2] == "D"
    ensures Indexed(ids, Round2) && Flatten(ids, Round2, NoContext) == ["B", "C", "D"]
  {
    ExampleBest2(ids);
    ExamplePlaced2();
    StepTo(ids, Round2, NoContext, "B", ids[1..], Round3);
    ExampleFlatten3(ids[1..]);
  }

  lemma ExampleFlatten1(ids: seq<string>)
    requires IsExampleIds(ids)
    ensures Indexed(ids, Round1) && Flatten(ids, Round1, NoContext) == ["A", "B", "C", "D"]
  {
    ExampleBest1(ids);
    ExamplePlaced1();
    StepTo(ids, Round1, NoContext, "A", ids[1..], Round2);
    ExampleFlatten2(ids[1..]);
    ExampleLetters();
  }

  lemma ExampleLetters()
    ensures ["A"] + ["B", "C", "D"] == ["A", "B", "C", "D"]
  {
  }

  /**
   * The documentation comment's example: A depends on B, B and C depend on D,
   * no id is a target or installed. The groups come out as A, B, C, D.
   */
  lemma WorkedExample(v: NuGetVersion, toB: PackageDependency, toD: PackageDependency)
    requires toB.id == "B" && toD.id == "D"
    ensures Sortable(ExampleGroups(v, toB, toD))
    ensures Order(ExampleGroups(v, toB, toD), NoContext) == ["A", "B", "C", "D"]
  {
    var groups := ExampleGroups(v, toB, toD);
    ExampleParents(v, toB, toD);
    OrderIs(groups, NoContext, Round1);
    ExampleFlatten1(FirstIds(groups));
  }
}
