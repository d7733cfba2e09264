/**
 * `FrameworkRangeComparer` (src/NuGet.Frameworks/comparers/FrameworkRangeComparer.cs):
 * equality and hash of a framework range, used as a dictionary key.
 */
module Frameworks {
  import opened Text

  /** A target framework (opaque). */
  type NuGetFramework(==, !new)

  /** A range of frameworks with one identifier; a reference type. */
  class FrameworkRange {
    const frameworkIdentifier: string
    const min: NuGetFramework
    const max: NuGetFramework

    constructor (frameworkIdentifier: string, min: NuGetFramework, max: NuGetFramework)
      ensures this.frameworkIdentifier == frameworkIdentifier && this.min == min && this.max == max
    {
      this.frameworkIdentifier := frameworkIdentifier;
      this.min := min;
      this.max := max;
    }
  }

  /** `NuGetFramework.Comparer` and `NuGetFramework.GetHashCode`, which are not part of this model. */
  datatype FrameworkComparer = FrameworkComparer(
    equals: (NuGetFramework, NuGetFramework) -> bool,
    hash: NuGetFramework -> int)

  /**
   * `HashCodeCombiner`, which is not part of this model: a starting value, an
   * order-sensitive step, and the ordinal hash that `AddStringIgnoreCase` applies
   * to the upper-cased string.
   */
  datatype HashCodeCombiner = HashCodeCombiner(
    seed: int,
    add: (int, int) -> int,
    stringHash: string -> int)

  /** `Equals(x, y)`. */
  predicate Equals(x: FrameworkRange?, y: FrameworkRange?, fw: FrameworkComparer)
    ensures x == y ==> Equals(x, y, fw)
    ensures (x == null) != (y == null) ==> !Equals(x, y, fw)
    ensures x != null && y != null && x != y ==>
      (Equals(x, y, fw) <==>
        EqualsIgnoreCase(x.frameworkIdentifier, y.frameworkIdentifier)
        && fw.equals(x.min, y.min) && fw.equals(x.max, y.max))
  {
    if x == y then
      true
    else if x == null || y == null then
      false
    else
      EqualsIgnoreCase(x.frameworkIdentifier, y.frameworkIdentifier)
      && fw.equals(x.min, y.min) && fw.equals(x.max, y.max)
  }

  /** `GetHashCode(obj)`: 0 for null, else the identifier (ignoring case), Min, Max folded in that order. */
  function GetHashCode(obj: FrameworkRange?, fw: FrameworkComparer, combiner: HashCodeCombiner): (h: int)
    ensures obj == null ==> h == 0
  {
    if obj == null then 0
    else
      var afterIdentifier := combiner.add(combiner.seed, combiner.stringHash(Fold(obj.frameworkIdentifier)));
      var afterMin := combiner.add(afterIdentifier, fw.hash(obj.min));
      combiner.add(afterMin, fw.hash(obj.max))
  }

  ghost predicate Symmetric(fw: FrameworkComparer) {
    forall a, b :: fw.equals(a, b) == fw.equals(b, a)
  }

  ghost predicate HashAgreesWithEquals(fw: FrameworkComparer) {
    forall a, b :: fw.equals(a, b) ==> fw.hash(a) == fw.hash(b)
  }

  /** Equals is symmetric whenever the framework comparer is. */
  lemma EqualsSymmetric(x: FrameworkRange?, y: FrameworkRange?, fw: FrameworkComparer)
    requires Symmetric(fw)
    ensures Equals(x, y, fw) == Equals(y, x, fw)
  {
  }

  /** Ranges that differ only in the casing of their identifier hash equally. */
  lemma HashIgnoresIdentifierCase(x: FrameworkRange, y: FrameworkRange, fw: FrameworkComparer, combiner: HashCodeCombiner)
    requires EqualsIgnoreCase(x.frameworkIdentifier, y.frameworkIdentifier)
    requires x.min == y.min && x.max == y.max
    ensures GetHashCode(x, fw, combiner) == GetHashCode(y, fw, combiner)
  {
  }

  /** Equal ranges hash equally whenever the framework hash agrees with the framework comparer. */
  lemma EqualRangesHashEqually(x: FrameworkRange?, y: FrameworkRange?, fw: FrameworkComparer, combiner: HashCodeCombiner)
    requires HashAgreesWithEquals(fw)
    requires Equals(x, y, fw)
    ensures GetHashCode(x, fw, combiner) == GetHashCode(y, fw, combiner)
  {
  }
}
