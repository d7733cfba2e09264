/**
 * The part of NuGet.Versioning that the core reads. `NuGetVersion` and
 * `FloatRange` are opaque: only their identity is used here.
 */
module Versioning {
  import opened Wrappers

  /** A NuGet version (opaque). */
  type NuGetVersion(==, !new)

  /** Floating-range metadata (opaque); preserved, never evaluated. */
  type FloatRange(==, !new)

  /**
   * A version range: an absent bound is unbounded on that side. Equality is
   * structural over all six fields.
   */
  datatype VersionRange = VersionRange(
    minVersion: Option<NuGetVersion>,
    isMinInclusive: bool,
    maxVersion: Option<NuGetVersion>,
    isMaxInclusive: bool,
    includePrerelease: bool,
    float: Option<FloatRange>)

  /** `VersionRange.All`: no lower and no upper bound. */
  const All: VersionRange := VersionRange(None, true, None, true, true, None)
}
