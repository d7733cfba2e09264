/**
 * `ResolverInputSort.TreeFlatten` (src/NuGet.Resolver/ResolverInputSort.cs):
 * orders groups of candidate packages, one group per package id. Each round
 * emits the remaining id that is least by (priority, remaining parent count,
 * number of parent sets holding it, id ignoring case) and removes it from
 * every parent set.
 */
module ResolverSort {
  import opened Wrappers
  import opened Text
  import opened Versioning
  import opened Packaging

  /** A candidate package: id, version and dependencies (elements may be null). */
  datatype ResolverPackage = ResolverPackage(id: string, version: NuGetVersion, dependencies: seq<PackageDependency?>)

  /** The candidates for one package id. */
  type Group = seq<ResolverPackage>

  /** The target ids and the ids already installed (from packages.config). */
  datatype PackageResolverContext = PackageResolverContext(targetIds: seq<string>, installedIds: seq<string>)

  /** `First()` on an empty group, or `Dictionary.Add` of an id already present (ignoring case). */
  datatype SortError = EmptyGroup | DuplicateId

  /** The caller's list of groups, emptied by `TreeFlatten`. */
  class GroupedPackages {
    var items: seq<Group>

    constructor (items: seq<Group>)
      ensures this.items == items
    {
      this.items := items;
    }
  }

  /** `TreeFlattenPriority`: targets 1 (even when installed), installed 0, others 2. */
  function Priority(id: string, context: PackageResolverContext): (p: nat)
    ensures p <= 2
    ensures ContainsIgnoreCase(context.targetIds, id) ==> p == 1
    ensures !ContainsIgnoreCase(context.targetIds, id) && ContainsIgnoreCase(context.installedIds, id) ==> p == 0
    ensures !ContainsIgnoreCase(context.targetIds, id) && !ContainsIgnoreCase(context.installedIds, id) ==> p == 2
  {
    if ContainsIgnoreCase(context.targetIds, id) then 1
    else if ContainsIgnoreCase(context.installedIds, id) then 0
    else 2
  }

  /** Every group has a first package. */
  predicate NonEmptyGroups(groups: seq<Group>) {
    forall k :: 0 <= k < |groups| ==> |groups[k]| > 0
  }

  /** The id of the first package of each group, in group order. */
  function FirstIds(groups: seq<Group>): (ids: seq<string>)
    requires NonEmptyGroups(groups)
    ensures |ids| == |groups| && forall k :: 0 <= k < |groups| ==> ids[k] == groups[k][0].id
  {
    seq(|groups|, k requires 0 <= k < |groups| => groups[k][0].id)
  }

  /** The ids of all non-null dependencies of all packages in a group, upper-cased. */
  function DependencyIds(group: Group): set<string> {
    set p, d | p in group && d in p.dependencies && d != null :: Fold(d.id)
  }

  /** The dependency-id set of each group, in group order. */
  function DependencySets(groups: seq<Group>): (deps: seq<set<string>>)
    ensures |deps| == |groups| && forall k :: 0 <= k < |groups| ==> deps[k] == DependencyIds(groups[k])
  {
    seq(|groups|, k requires 0 <= k < |groups| => DependencyIds(groups[k]))
  }

  /** No two ids are equal ignoring case. */
  predicate DistinctIgnoreCase(ids: seq<string>) {
    forall i, j :: 0 <= i < j < |ids| ==> Fold(ids[i]) != Fold(ids[j])
  }

  /** The groups can be sorted without an exception. */
  predicate Sortable(groups: seq<Group>) {
    NonEmptyGroups(groups) && DistinctIgnoreCase(FirstIds(groups))
  }

  /** The parents of `ids[i]`: the other ids whose group depends on it (ignoring case). */
  function ParentsOf(ids: seq<string>, deps: seq<set<string>>, i: nat): set<string>
    requires |deps| == |ids| && i < |ids|
  {
    set j | 0 <= j < |ids| && j != i && Fold(ids[i]) in deps[j] :: Fold(ids[j])
  }

  /** The `parents` dictionary before the first round, keyed by upper-cased id. */
  function InitialParents(ids: seq<string>, deps: seq<set<string>>): (parents: map<string, set<string>>)
    requires |deps| == |ids| && DistinctIgnoreCase(ids)
    ensures forall i :: 0 <= i < |ids| ==> Fold(ids[i]) in parents && parents[Fold(ids[i])] == ParentsOf(ids, deps, i)
    ensures forall k :: k in parents ==> exists i :: 0 <= i < |ids| && Fold(ids[i]) == k
  {
    map i | 0 <= i < |ids| :: Fold(ids[i]) := ParentsOf(ids, deps, i)
  }

  /** Every remaining id has a parent set. */
  predicate Indexed(ids: seq<string>, parents: map<string, set<string>>) {
    forall k :: 0 <= k < |ids| ==> Fold(ids[k]) in parents
  }

  /** The selection key of one id; the id is compared upper-cased. */
  datatype SortKey = SortKey(priority: nat, parentCount: nat, containingCount: nat, foldedId: string)

  /** The number of parent sets that hold `id`. */
  function ContainingCount(parents: map<string, set<string>>, id: string): nat {
    |set k | k in parents && Fold(id) in parents[k]|
  }

  function KeyOf(id: string, parents: map<string, set<string>>, context: PackageResolverContext): SortKey
    requires Fold(id) in parents
  {
    SortKey(Priority(id, context), |parents[Fold(id)]|, ContainingCount(parents, id), Fold(id))
  }

  /**
   * Every part of the key compares the id ignoring case: two ids get the same
   * key exactly when they are equal ignoring case.
   */
  lemma KeyOfIgnoresCase(a: string, b: string, parents: map<string, set<string>>, context: PackageResolverContext)
    requires Fold(a) in parents && Fold(b) in parents
    ensures KeyOf(a, parents, context) == KeyOf(b, parents, context) <==> Fold(a) == Fold(b)
  {
    if Fold(a) == Fold(b) {
      assert ContainsIgnoreCase(context.targetIds, a) == ContainsIgnoreCase(context.targetIds, b);
      assert ContainsIgnoreCase(context.installedIds, a) == ContainsIgnoreCase(context.installedIds, b);
    }
  }

  /** Lexicographic order on keys, every component ascending. */
  predicate KeyLeq(a: SortKey, b: SortKey) {
    if a.priority != b.priority then a.priority < b.priority
    else if a.parentCount != b.parentCount then a.parentCount < b.parentCount
    else if a.containingCount != b.containingCount then a.containingCount < b.containingCount
    else OrdinalLeq(a.foldedId, b.foldedId)
  }

  predicate KeyLess(a: SortKey, b: SortKey) {
    !KeyLeq(b, a)
  }

  lemma KeyLeqReflexive(a: SortKey)
    ensures KeyLeq(a, a)
  {
    OrdinalLeqReflexive(a.foldedId);
  }

  lemma KeyLeqTotal(a: SortKey, b: SortKey)
    ensures KeyLeq(a, b) || KeyLeq(b, a)
  {
    OrdinalLeqTotal(a.foldedId, b.foldedId);
  }

  lemma KeyLeqTransitive(a: SortKey, b: SortKey, c: SortKey)
    requires KeyLeq(a, b) && KeyLeq(b, c)
    ensures KeyLeq(a, c)
  {
    if a.priority == b.priority == c.priority && a.parentCount == b.parentCount == c.parentCount
       && a.containingCount == b.containingCount == c.containingCount {
      OrdinalLeqTransitive(a.foldedId, b.foldedId, c.foldedId);
    }
  }

  lemma KeyLeqAntisymmetric(a: SortKey, b: SortKey)
    requires KeyLeq(a, b) && KeyLeq(b, a)
    ensures a == b
  {
    OrdinalLeqAntisymmetric(a.foldedId, b.foldedId);
  }

  /**
   * The remaining id with the least key; on a tie the earlier one, as the
   * source's sort is stable.
   */
  function Best(ids: seq<string>, parents: map<string, set<string>>, context: PackageResolverContext): (best: string)
    requires |ids| > 0 && Indexed(ids, parents)
    ensures best in ids
    ensures forall k :: 0 <= k < |ids| ==> KeyLeq(KeyOf(best, parents, context), KeyOf(ids[k], parents, context))
    decreases |ids|
  {
    if |ids| == 1 then
      KeyLeqReflexive(KeyOf(ids[0], parents, context));
      ids[0]
    else
      var previous := Best(ids[..|ids| - 1], parents, context);
      var last := ids[|ids| - 1];
      BestStep(ids, parents, context, previous);
      if KeyLess(KeyOf(last, parents, context), KeyOf(previous, parents, context)) then last else previous
  }

  lemma BestStep(ids: seq<string>, parents: map<string, set<string>>, context: PackageResolverContext, previous: string)
    requires |ids| > 1 && Indexed(ids, parents)
    requires previous in ids[..|ids| - 1]
    requires forall k :: 0 <= k < |ids| - 1 ==>
      KeyLeq(KeyOf(previous, parents, context), KeyOf(ids[k], parents, context))
    ensures var last := ids[|ids| - 1];
      var best := if KeyLess(KeyOf(last, parents, context), KeyOf(previous, parents, context)) then last else previous;
      best in ids && forall k :: 0 <= k < |ids| ==> KeyLeq(KeyOf(best, parents, context), KeyOf(ids[k], parents, context))
  {
    var last := ids[|ids| - 1];
    var kl, kp := KeyOf(last, parents, context), KeyOf(previous, parents, context);
    KeyLeqTotal(kl, kp);
    KeyLeqReflexive(kl);
    assert previous in ids by {
      var k :| 0 <= k < |ids| - 1 && ids[..|ids| - 1][k] == previous;
      assert ids[k] == previous;
    }
    forall k | 0 <= k < |ids| - 1
      ensures KeyLess(kl, kp) ==> KeyLeq(kl, KeyOf(ids[k], parents, context))
    {
      if KeyLess(kl, kp) {
        KeyLeqTransitive(kl, kp, KeyOf(ids[k], parents, context));
      }
    }
  }

  /** `List.Remove`: drops the first element equal to `x`, if any. */
  function RemoveFirst<T(==)>(xs: seq<T>, x: T): (r: seq<T>)
    ensures x in xs ==> |r| == |xs| - 1
    ensures x !in xs ==> r == xs
  {
    if xs == [] then []
    else if xs[0] == x then xs[1..]
    else [xs[0]] + RemoveFirst(xs[1..], x)
  }

  /** Removing the first `x` removes one `x` and nothing else. */
  lemma {:induction false} RemoveFirstMultiset<T>(xs: seq<T>, x: T)
    ensures multiset(RemoveFirst(xs, x)) == multiset(xs) - multiset{x}
  {
    if xs != [] {
      assert xs == [xs[0]] + xs[1..];
      if xs[0] != x {
        RemoveFirstMultiset(xs[1..], x);
      }
    }
  }

  /** Placing an id: it is taken out of every parent set (compared upper-cased). */
  function Placed(parents: map<string, set<string>>, id: string): (after: map<string, set<string>>)
    ensures after.Keys == parents.Keys
    ensures forall k :: k in parents ==> after[k] == parents[k] - {Fold(id)}
  {
    map k | k in parents :: parents[k] - {Fold(id)}
  }

  lemma {:induction false} RemoveFirstAt<T>(xs: seq<T>, p: nat)
    requires p < |xs|
    requires forall k :: 0 <= k < p ==> xs[k] != xs[p]
    ensures RemoveFirst(xs, xs[p]) == xs[..p] + xs[p + 1..]
    decreases p
  {
    if p == 0 {
      assert xs[..0] + xs[1..] == xs[1..];
    } else {
      var tail := xs[1..];
      assert tail[p - 1] == xs[p];
      forall k | 0 <= k < p - 1 ensures tail[k] != tail[p - 1] {
        assert tail[k] == xs[k + 1];
      }
      RemoveFirstAt(tail, p - 1);
      assert RemoveFirst(xs, xs[p]) == [xs[0]] + RemoveFirst(tail, xs[p]);
      assert tail[..p - 1] == xs[1..p];
      assert tail[p..] == xs[p + 1..];
      assert [xs[0]] + xs[1..p] == xs[..p];
    }
  }

  /** The ids in the order the loop emits them. */
  function Flatten(ids: seq<string>, parents: map<string, set<string>>, context: PackageResolverContext): (order: seq<string>)
    requires Indexed(ids, parents)
    ensures multiset(order) == multiset(ids)
    decreases |ids|
  {
    if ids == [] then []
    else
      var next := Best(ids, parents, context);
      var rest := RemoveFirst(ids, next);
      RemoveFirstMultiset(ids, next);
      RemainingIndexed(ids, parents, next);
      [next] + Flatten(rest, Placed(parents, next), context)
  }

  lemma RemainingIndexed(ids: seq<string>, parents: map<string, set<string>>, next: string)
    requires Indexed(ids, parents)
    ensures Indexed(RemoveFirst(ids, next), Placed(parents, next))
  {
    var rest := RemoveFirst(ids, next);
    RemoveFirstMultiset(ids, next);
    forall k | 0 <= k < |rest| ensures Fold(rest[k]) in Placed(parents, next) {
      assert rest[k] in multiset(rest);
      var i :| 0 <= i < |ids| && ids[i] == rest[k];
    }
  }

  /** The order `TreeFlatten` produces, as ids. */
  function Order(groups: seq<Group>, context: PackageResolverContext): seq<string>
    requires Sortable(groups)
  {
    var ids := FirstIds(groups);
    InitialIndexed(ids, DependencySets(groups));
    Flatten(ids, InitialParents(ids, DependencySets(groups)), context)
  }

  lemma InitialIndexed(ids: seq<string>, deps: seq<set<string>>)
    requires |deps| == |ids| && DistinctIgnoreCase(ids)
    ensures Indexed(ids, InitialParents(ids, deps))
  {
  }

  /** Picks the remaining id with the least selection key, scanning the ids once. */
  method SelectNext(ids: seq<string>, parents: map<string, set<string>>, context: PackageResolverContext)
    returns (next: string)
    requires |ids| > 0 && Indexed(ids, parents)
    ensures next == Best(ids, parents, context)
  {
    next := ids[0];
    var i := 1;
    while i < |ids|
      invariant 1 <= i <= |ids|
      invariant Indexed(ids[..i], parents)
      invariant next == Best(ids[..i], parents, context)
    {
      assert ids[..i + 1][..i] == ids[..i];
      if KeyLess(KeyOf(ids[i], parents, context), KeyOf(next, parents, context)) {
        next := ids[i];
      }
      i := i + 1;
    }
    assert ids[..i] == ids;
  }

  /** The inner loop: the parents of `ids[i]`. */
  method CollectParents(ids: seq<string>, deps: seq<set<string>>, i: nat) returns (parentsForId: set<string>)
    requires |deps| == |ids| && i < |ids|
    ensures parentsForId == ParentsOf(ids, deps, i)
  {
    parentsForId := {};
    var j := 0;
    while j < |ids|
      invariant 0 <= j <= |ids|
      invariant parentsForId == set j' | 0 <= j' < j && j' != i && Fold(ids[i]) in deps[j'] :: Fold(ids[j'])
    {
      if i != j && Fold(ids[i]) in deps[j] {
        parentsForId := parentsForId + {Fold(ids[j])};
      }
      j := j + 1;
    }
  }

  /** The outer loop that builds `parents`; `Dictionary.Add` fails on a repeated id. */
  method BuildParents(ids: seq<string>, deps: seq<set<string>>)
    returns (r: Result<map<string, set<string>>, SortError>)
    requires |deps| == |ids|
    ensures r.Success? <==> DistinctIgnoreCase(ids)
    ensures r.Failure? ==> r.error == DuplicateId
    ensures r.Success? ==> r.value == InitialParents(ids, deps)
  {
    var parents: map<string, set<string>> := map[];
    var i := 0;
    while i < |ids|
      invariant 0 <= i <= |ids|
      invariant forall a, b :: 0 <= a < b < i ==> Fold(ids[a]) != Fold(ids[b])
      invariant forall k :: k in parents ==> exists m :: 0 <= m < i && Fold(ids[m]) == k
      invariant forall m :: 0 <= m < i ==> Fold(ids[m]) in parents && parents[Fold(ids[m])] == ParentsOf(ids, deps, m)
    {
      var parentsForId := CollectParents(ids, deps, i);
      if Fold(ids[i]) in parents {
        var m :| 0 <= m < i && Fold(ids[m]) == Fold(ids[i]);
        return Failure(DuplicateId);
      }
      parents := parents[Fold(ids[i]) := parentsForId];
      i := i + 1;
    }
    var expected := InitialParents(ids, deps);
    assert parents.Keys == expected.Keys;
    r := Success(parents);
  }

  /** The position of the group whose first id equals `id` ignoring case. */
  method FindGroup(groups: seq<Group>, id: string) returns (p: nat)
    requires NonEmptyGroups(groups)
    requires exists k :: 0 <= k < |groups| && Fold(groups[k][0].id) == Fold(id)
    ensures p < |groups| && Fold(groups[p][0].id) == Fold(id)
    ensures forall k :: 0 <= k < p ==> Fold(groups[k][0].id) != Fold(id)
  {
    p := 0;
    while Fold(groups[p][0].id) != Fold(id)
      invariant p < |groups|
      invariant forall k :: 0 <= k < p ==> Fold(groups[k][0].id) != Fold(id)
      invariant exists k :: p <= k < |groups| && Fold(groups[k][0].id) == Fold(id)
      decreases |groups| - p
    {
      p := p + 1;
    }
  }

  lemma RemoveAtAligned(groups: seq<Group>, ids: seq<string>, p: nat)
    requires NonEmptyGroups(groups) && FirstIds(groups) == ids && p < |groups|
    ensures NonEmptyGroups(groups[..p] + groups[p + 1..])
    ensures FirstIds(groups[..p] + groups[p + 1..]) == ids[..p] + ids[p + 1..]
  {
    var rest: seq<Group> := groups[..p] + groups[p + 1..];
    forall k | 0 <= k < |rest| ensures |rest[k]| > 0 && rest[k][0].id == (ids[..p] + ids[p + 1..])[k] {
      if k < p {
        assert rest[k] == groups[k];
      } else {
        assert rest[k] == groups[k + 1];
      }
    }
  }

  lemma DistinctRemoveAt(ids: seq<string>, p: nat)
    requires DistinctIgnoreCase(ids) && p < |ids|
    ensures DistinctIgnoreCase(ids[..p] + ids[p + 1..])
  {
    var rest := ids[..p] + ids[p + 1..];
    forall a, b | 0 <= a < b < |rest| ensures Fold(rest[a]) != Fold(rest[b]) {
      var a', b' := if a < p then a else a + 1, if b < p then b else b + 1;
      assert rest[a] == ids[a'] && rest[b] == ids[b'];
    }
  }

  /** What holds between rounds of the selection loop. */
  ghost predicate LoopState(original: seq<Group>, order: seq<string>, sorted: seq<Group>, remaining: seq<Group>,
                            ids: seq<string>, parents: map<string, set<string>>, context: PackageResolverContext)
  {
    && NonEmptyGroups(remaining) && FirstIds(remaining) == ids
    && DistinctIgnoreCase(ids)
    && Indexed(ids, parents)
    && NonEmptyGroups(sorted)
    && multiset(sorted) + multiset(remaining) == multiset(original)
    && FirstIds(sorted) + Flatten(ids, parents, context) == order
  }

  /** One unfolding of `Flatten`. */
  lemma FlattenStep(ids: seq<string>, parents: map<string, set<string>>, context: PackageResolverContext)
    requires |ids| > 0 && Indexed(ids, parents)
    ensures Indexed(RemoveFirst(ids, Best(ids, parents, context)), Placed(parents, Best(ids, parents, context)))
    ensures Flatten(ids, parents, context) == [Best(ids, parents, context)]
      + Flatten(RemoveFirst(ids, Best(ids, parents, context)), Placed(parents, Best(ids, parents, context)), context)
  {
    RemainingIndexed(ids, parents, Best(ids, parents, context));
  }

  /** The group found for an id heads the same position as the id. */
  lemma FoundAtSameIndex(remaining: seq<Group>, ids: seq<string>, nextId: string, p: nat)
    requires NonEmptyGroups(remaining) && FirstIds(remaining) == ids && DistinctIgnoreCase(ids)
    requires nextId in ids && p < |remaining| && Fold(remaining[p][0].id) == Fold(nextId)
    ensures ids[p] == nextId && remaining[p][0].id == nextId
  {
    var q :| 0 <= q < |ids| && ids[q] == nextId;
    assert Fold(ids[p]) == Fold(ids[q]);
  }

  /** Removing the group at `p` and its id keeps the lists aligned and distinct. */
  lemma RemoveAligned(remaining: seq<Group>, ids: seq<string>, p: nat)
    requires NonEmptyGroups(remaining) && FirstIds(remaining) == ids && DistinctIgnoreCase(ids) && p < |ids|
    ensures NonEmptyGroups(RemoveFirst(remaining, remaining[p]))
    ensures FirstIds(RemoveFirst(remaining, remaining[p])) == RemoveFirst(ids, ids[p])
    ensures DistinctIgnoreCase(RemoveFirst(ids, ids[p]))
    ensures multiset(RemoveFirst(remaining, remaining[p])) + multiset{remaining[p]} == multiset(remaining)
  {
    forall k | 0 <= k < p ensures ids[k] != ids[p] {
      assert Fold(ids[k]) != Fold(ids[p]);
    }
    RemoveFirstAt(ids, p);
    forall k | 0 <= k < p ensures remaining[k] != remaining[p] {
      assert remaining[k][0].id == ids[k];
    }
    RemoveFirstAt(remaining, p);
    RemoveAtAligned(remaining, ids, p);
    DistinctRemoveAt(ids, p);
    RemoveFirstMultiset(remaining, remaining[p]);
  }

  /** Emitting one more group extends the id list by its id. */
  lemma AppendGroup(sorted: seq<Group>, g: Group)
    requires NonEmptyGroups(sorted) && |g| > 0
    ensures NonEmptyGroups(sorted + [g])
    ensures FirstIds(sorted + [g]) == FirstIds(sorted) + [g[0].id]
  {
  }

  lemma ShiftOne<T>(emitted: seq<T>, x: T, rest: seq<T>, whole: seq<T>)
    requires emitted + ([x] + rest) == whole
    ensures (emitted + [x]) + rest == whole
  {
    assert (emitted + [x]) + rest == emitted + ([x] + rest);
  }

  /** One round: emit the best id's group, drop it from the parent sets and from both lists. */
  lemma Round(original: seq<Group>, order: seq<string>, sorted: seq<Group>, remaining: seq<Group>, ids: seq<string>,
              parents: map<string, set<string>>, context: PackageResolverContext, nextId: string, p: nat)
    requires LoopState(original, order, sorted, remaining, ids, parents, context)
    requires |ids| > 0 && nextId == Best(ids, parents, context)
    requires p < |remaining| && Fold(remaining[p][0].id) == Fold(nextId)
    ensures LoopState(original, order, sorted + [remaining[p]], RemoveFirst(remaining, remaining[p]),
                      RemoveFirst(ids, nextId), Placed(parents, nextId), context)
  {
    var g := remaining[p];
    var rest := RemoveFirst(remaining, g);
    var ids' := RemoveFirst(ids, nextId);
    var parents' := Placed(parents, nextId);
    assert ids[p] == nextId && g[0].id == nextId by {
      FoundAtSameIndex(remaining, ids, nextId, p);
    }
    assert NonEmptyGroups(rest) && FirstIds(rest) == ids' && DistinctIgnoreCase(ids')
        && multiset(rest) + multiset{g} == multiset(remaining) by {
      RemoveAligned(remaining, ids, p);
    }
    assert Indexed(ids', parents') by {
      RemainingIndexed(ids, parents, nextId);
    }
    assert NonEmptyGroups(sorted + [g]) && FirstIds(sorted + [g]) == FirstIds(sorted) + [nextId] by {
      AppendGroup(sorted, g);
    }
    assert multiset(sorted + [g]) + multiset(rest) == multiset(original);
    assert FirstIds(sorted + [g]) + Flatten(ids', parents', context) == order by {
      FlattenStep(ids, parents, context);
      ShiftOne(FirstIds(sorted), nextId, Flatten(ids', parents', context), order);
    }
  }

  /** The state before the first round. */
  lemma FirstRound(original: seq<Group>, context: PackageResolverContext)
    requires Sortable(original)
    ensures LoopState(original, Order(original, context), [], original, FirstIds(original),
                      InitialParents(FirstIds(original), DependencySets(original)), context)
  {
    InitialIndexed(FirstIds(original), DependencySets(original));
  }

  /**
   * `TreeFlatten`: the groups in the order `Order` gives, each exactly once;
   * `grouped` is emptied. An empty group or a repeated id (ignoring case) fails
   * before anything is changed.
   */
  method TreeFlatten(grouped: GroupedPackages, context: PackageResolverContext)
    returns (r: Result<seq<Group>, SortError>)
    modifies grouped
    ensures r.Success? <==> Sortable(old(grouped.items))
    ensures r.Failure? ==> grouped.items == old(grouped.items)
    ensures r.Failure? ==> (r.error == EmptyGroup <==> !NonEmptyGroups(old(grouped.items)))
    ensures r.Success? ==> grouped.items == [] && multiset(r.value) == multiset(old(grouped.items))
    ensures r.Success? ==> NonEmptyGroups(r.value) && FirstIds(r.value) == Order(old(grouped.items), context)
  {
    var original := grouped.items;
    if exists k :: 0 <= k < |original| && |original[k]| == 0 {
      return Failure(EmptyGroup);
    }
    var groupIds := FirstIds(original);
    var dependencies := DependencySets(original);
    var built := BuildParents(groupIds, dependencies);
    if built.Failure? {
      return Failure(built.error);
    }
    FirstRound(original, context);
    var sorted := Rounds(grouped, original, Order(original, context), groupIds, built.value, context);
    r := Success(sorted);
  }

  /** The loop of `TreeFlatten` that runs until no id is left. */
  method Rounds(grouped: GroupedPackages, ghost original: seq<Group>, ghost order: seq<string>,
                ids: seq<string>, parents: map<string, set<string>>, context: PackageResolverContext)
    returns (sorted: seq<Group>)
    requires LoopState(original, order, [], grouped.items, ids, parents, context)
    modifies grouped
    ensures grouped.items == [] && multiset(sorted) == multiset(original)
    ensures NonEmptyGroups(sorted) && FirstIds(sorted) == order
  {
    sorted := [];
    var idsToSort := ids;
    var parentIds := parents;
    while |idsToSort| > 0
      invariant LoopState(original, order, sorted, grouped.items, idsToSort, parentIds, context)
      decreases |idsToSort|
    {
      var nextId := SelectNext(idsToSort, parentIds, context);
      ghost var q :| 0 <= q < |idsToSort| && idsToSort[q] == nextId;
      assert Fold(grouped.items[q][0].id) == Fold(nextId) by {
        assert grouped.items[q][0].id == idsToSort[q];
      }
      var p := FindGroup(grouped.items, nextId);
      var nextGroup := grouped.items[p];
      Round(original, order, sorted, grouped.items, idsToSort, parentIds, context, nextId, p);

      sorted := sorted + [nextGroup];
      parentIds := Placed(parentIds, nextId);
      grouped.items := RemoveFirst(grouped.items, nextGroup);
      idsToSort := RemoveFirst(idsToSort, nextId);
    }
    assert FirstIds(grouped.items) == [];
    assert FirstIds(sorted) + [] == FirstIds(sorted);
  }
}
