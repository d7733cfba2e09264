/**
 * `PackageDependency` (src/NuGet.Packaging.Core.Types/PackageDependency.cs): a
 * package id with an allowed version range. The id is fixed at construction;
 * the range can be widened in place to admit prerelease versions.
 */
module Packaging {
  import opened Wrappers
  import opened Versioning

  /** The exception the constructor throws for a null or empty id. */
  datatype ArgumentException = ArgumentException(message: string)

  /** What an equality comparer sees of a dependency: its id and current range. */
  datatype DependencyValue = DependencyValue(id: string, range: VersionRange)

  /**
   * `PackageDependencyComparer.Default`, which is not part of this model: an
   * equality and a hash over possibly-null dependencies.
   */
  datatype DependencyComparer = DependencyComparer(
    equals: (Option<DependencyValue>, Option<DependencyValue>) -> bool,
    hash: Option<DependencyValue> -> int)

  /** The comparer's hash agrees with its equality. */
  ghost predicate HashAgreesWithEquals(c: DependencyComparer) {
    forall a, b :: c.equals(a, b) ==> c.hash(a) == c.hash(b)
  }

  /** The same range, rebuilt with prerelease versions admitted. */
  function WithIncludePrerelease(r: VersionRange): (p: VersionRange)
    ensures p.includePrerelease
    ensures p.minVersion == r.minVersion && p.isMinInclusive == r.isMinInclusive
    ensures p.maxVersion == r.maxVersion && p.isMaxInclusive == r.isMaxInclusive
    ensures p.float == r.float
  {
    VersionRange(r.minVersion, r.isMinInclusive, r.maxVersion, r.isMaxInclusive, true, r.float)
  }

  /** Rebuilding twice gives the same range as rebuilding once. */
  lemma WithIncludePrereleaseIdempotent(r: VersionRange)
    ensures WithIncludePrerelease(WithIncludePrerelease(r)) == WithIncludePrerelease(r)
  {
  }

  class PackageDependency {
    const id: string
    var versionRange: VersionRange

    constructor (id: string, versionRange: VersionRange)
      requires id != []
      ensures this.id == id && this.versionRange == versionRange
    {
      this.id := id;
      this.versionRange := versionRange;
    }

    /** The values the comparer looks at. */
    function Value(): (v: DependencyValue)
      reads this
      ensures v.id == id && v.range == versionRange
    {
      DependencyValue(id, versionRange)
    }

    /** Widens the range to prerelease versions; the id and every other range field stay. */
    method SetIncludePrerelease()
      modifies this
      ensures versionRange == WithIncludePrerelease(old(versionRange))
    {
      versionRange := WithIncludePrerelease(versionRange);
    }

    /** `Equals(PackageDependency)`: delegates to the comparer. */
    predicate Equals(other: PackageDependency?, comparer: DependencyComparer)
      reads this, other
    {
      comparer.equals(Some(Value()), if other == null then None else Some(other.Value()))
    }

    /** `Equals(object)`: false unless `obj` is a non-null PackageDependency. */
    predicate EqualsObject(obj: object?, comparer: DependencyComparer)
      reads this, obj
      ensures EqualsObject(obj, comparer) ==> obj != null && obj is PackageDependency
      ensures obj is PackageDependency ==>
        (EqualsObject(obj, comparer) <==> Equals(obj as PackageDependency, comparer))
    {
      obj != null && obj is PackageDependency && Equals(obj as PackageDependency, comparer)
    }

    /** `GetHashCode()`: delegates to the same comparer. */
    function GetHashCode(comparer: DependencyComparer): int
      reads this
    {
      comparer.hash(Some(Value()))
    }

    /** `ToString()`: the id, one space, and the normalized range. */
    function ToString(toNormalizedString: VersionRange -> string): string
      reads this
    {
      id + " " + toNormalizedString(versionRange)
    }
  }

  /** `PackageDependency(string id, VersionRange versionRange)`; `None` stands for null. */
  method Create(id: Option<string>, versionRange: Option<VersionRange>)
    returns (r: Result<PackageDependency, ArgumentException>)
    ensures r.Failure? <==> id.None? || id.value == []
    ensures r.Failure? ==> r.error == ArgumentException("id")
    ensures r.Success? ==> fresh(r.value) && r.value.id == id.value
    ensures r.Success? ==> r.value.versionRange == versionRange.GetOr(All)
  {
    if id.None? || id.value == [] {
      return Failure(ArgumentException("id"));
    }
    var d := new PackageDependency(id.value, versionRange.GetOr(All));
    r := Success(d);
  }

  /** `PackageDependency(string id)`: the range is `VersionRange.All`. */
  method CreateWithAllVersions(id: Option<string>)
    returns (r: Result<PackageDependency, ArgumentException>)
    ensures r.Failure? <==> id.None? || id.value == []
    ensures r.Failure? ==> r.error == ArgumentException("id")
    ensures r.Success? ==> fresh(r.value) && r.value.id == id.value && r.value.versionRange == All
  {
    r := Create(id, Some(All));
  }

  /** Two calls to SetIncludePrerelease leave the range as one call does. */
  method SetIncludePrereleaseTwice(d: PackageDependency)
    modifies d
    ensures d.versionRange == WithIncludePrerelease(old(d.versionRange))
  {
    d.SetIncludePrerelease();
    d.SetIncludePrerelease();
    WithIncludePrereleaseIdempotent(old(d.versionRange));
  }

  /** Equal dependencies hash equally whenever the comparer's own hash agrees with its equality. */
  lemma EqualsImpliesSameHash(a: PackageDependency, b: PackageDependency, comparer: DependencyComparer)
    requires HashAgreesWithEquals(comparer)
    requires a.Equals(b, comparer)
    ensures a.GetHashCode(comparer) == b.GetHashCode(comparer)
  {
  }

  /** Splits a string at its first space: the inverse of the `"<id> <range>"` form. */
  function SplitAtFirstSpace(s: string): (parts: Option<(string, string)>)
    ensures parts.Some? ==> parts.value.0 + " " + parts.value.1 == s && ' ' !in parts.value.0
    ensures parts.None? ==> ' ' !in s
  {
    if s == [] then None
    else if s[0] == ' ' then Some(([], s[1..]))
    else match SplitAtFirstSpace(s[1..])
      case None => None
      case Some((head, tail)) => Some(([s[0]] + head, tail))
  }

  /** A dependency whose id has no space is recovered from its string form. */
  lemma {:induction false} ToStringSplits(d: PackageDependency, toNormalizedString: VersionRange -> string)
    requires ' ' !in d.id
    ensures SplitAtFirstSpace(d.ToString(toNormalizedString)) == Some((d.id, toNormalizedString(d.versionRange)))
  {
    SplitPrefix(d.id, toNormalizedString(d.versionRange));
  }

  lemma {:induction false} SplitPrefix(head: string, tail: string)
    requires ' ' !in head
    ensures SplitAtFirstSpace(head + " " + tail) == Some((head, tail))
  {
    if head == [] {
      assert head + " " + tail == [' '] + tail;
    } else {
      assert (head + " " + tail)[1..] == head[1..] + " " + tail;
      SplitPrefix(head[1..], tail);
      assert [head[0]] + head[1..] == head;
    }
  }
}
