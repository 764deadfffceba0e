/**
 Version ranges (pkg/semverutil/helper.go) over release versions.
 */
module SemverRanges {
  import opened Versions

  function IncrementMinor(v: Version): Version
  {
    Version(v.major, v.minor + 1, 0)
  }

  function IncrementPatch(v: Version): Version
  {
    Version(v.major, v.minor, v.patch + 1)
  }

  /** Whether the loop of GetMinorRange ever passes the upper end. */
  predicate MinorsEnd(low: Version, high: Version)
  {
    low.major >= high.major
  }

  predicate PatchesEnd(low: Version, high: Version)
  {
    low.major > high.major || (low.major == high.major && low.minor >= high.minor)
  }

  /** GetMinorRange; an entry is the version without its patch. */
  method GetMinorRange(low: Version, high: Version) returns (versions: seq<(nat, nat)>)
    requires MinorsEnd(low, high)
    ensures Before(high, low) ==> versions == []
    ensures !Before(high, low) ==>
              && |versions| == high.minor - low.minor + 1
              && forall i | 0 <= i < |versions| :: versions[i] == (low.major, low.minor + i)
  {
    versions := [];
    var current := low;
    while !Before(high, current)
      invariant current.major == low.major && current.minor == low.minor + |versions|
      invariant current == low || (current.patch == 0 && !Before(high, low) && current.minor <= high.minor + 1)
      invariant |versions| == 0 <==> current == low
      invariant forall i | 0 <= i < |versions| :: versions[i] == (low.major, low.minor + i)
      decreases high.minor + 1 - current.minor
    {
      versions := versions + [(current.major, current.minor)];
      current := IncrementMinor(current);
    }
  }

  /** GetPatchRange */
  method GetPatchRange(low: Version, high: Version) returns (versions: seq<Version>)
    requires PatchesEnd(low, high)
    ensures Before(high, low) ==> versions == []
    ensures !Before(high, low) ==>
              && |versions| == high.patch - low.patch + 1
              && forall i | 0 <= i < |versions| :: versions[i] == Version(low.major, low.minor, low.patch + i)
  {
    versions := [];
    var current := low;
    while !Before(high, current)
      invariant current == Version(low.major, low.minor, low.patch + |versions|)
      invariant current == low || (!Before(high, low) && current.patch <= high.patch + 1)
      invariant forall i | 0 <= i < |versions| :: versions[i] == Version(low.major, low.minor, low.patch + i)
      decreases high.patch + 1 - current.patch
    {
      versions := versions + [current];
      current := IncrementPatch(current);
    }
  }

  function MinorAfter(v: Version, steps: nat): Version
  {
    if steps == 0 then v else IncrementMinor(MinorAfter(v, steps - 1))
  }

  function PatchAfter(v: Version, steps: nat): Version
  {
    if steps == 0 then v else IncrementPatch(PatchAfter(v, steps - 1))
  }

  /** The loops end exactly where they are asked to: otherwise no number of steps passes the upper end. */
  lemma {:induction false} MinorsEndExactly(low: Version, high: Version)
    ensures MinorsEnd(low, high) <==> exists k :: Before(high, MinorAfter(low, k))
  {
    if MinorsEnd(low, high) {
      MinorAfterIs(low, high.minor + 1);
      assert Before(high, MinorAfter(low, high.minor + 1));
    } else {
      forall k ensures !Before(high, MinorAfter(low, k)) { MinorAfterIs(low, k); }
    }
  }

  lemma {:induction false} PatchesEndExactly(low: Version, high: Version)
    ensures PatchesEnd(low, high) <==> exists k :: Before(high, PatchAfter(low, k))
  {
    if PatchesEnd(low, high) {
      PatchAfterIs(low, high.patch + 1);
      assert Before(high, PatchAfter(low, high.patch + 1));
    } else {
      forall k ensures !Before(high, PatchAfter(low, k)) { PatchAfterIs(low, k); }
    }
  }

  lemma {:induction false} MinorAfterIs(v: Version, k: nat)
    ensures MinorAfter(v, k).major == v.major && MinorAfter(v, k).minor == v.minor + k
  {
    if k > 0 { MinorAfterIs(v, k - 1); }
  }

  lemma {:induction false} PatchAfterIs(v: Version, k: nat)
    ensures PatchAfter(v, k) == Version(v.major, v.minor, v.patch + k)
  {
    if k > 0 { PatchAfterIs(v, k - 1); }
  }
}
