/** Release versions, ordered as in section 11 of Semantic Versioning 2.0.0. */
module Versions {

  /** The components are 64-bit unsigned integers in the source. */
  datatype Version = Version(major: nat, minor: nat, patch: nat)

  predicate Before(a: Version, b: Version)
  {
    || a.major < b.major
    || (a.major == b.major && (a.minor < b.minor || (a.minor == b.minor && a.patch < b.patch)))
  }
}
