/**
  The older version type (`MinecraftVersion`, `MinecraftType`) that the
  previous generation of providers and the build command are written against:
  a bare version string, ordered by its numeric components, with `latest`
  above everything.
*/
module MinecraftVersionType {
  import opened Text
  import Minecraft

  datatype MinecraftVersion = MinecraftVersion(rawValue: string)

  const Latest: MinecraftVersion := MinecraftVersion("latest")
  const All: MinecraftVersion := MinecraftVersion("all")

  /**
    The older game-type enum has exactly the cases, raw values, descriptions
    and `latest` tags of `Minecraft.GameType`, so it is that type here.
  */
  type MinecraftType = Minecraft.GameType

  /** The numeric components of the version; none for `latest`. */
  function Components(v: MinecraftVersion): seq<nat> {
    if v == Latest then [] else CompactMapUInt(Split(v.rawValue, '.'))
  }

  /**
    The comparison gets past the major and minor components and the
    two-versus-three-component rules, and so reaches the patch components.
  */
  predicate ReachesPatch(lhs: MinecraftVersion, rhs: MinecraftVersion) {
    var l, r := Components(lhs), Components(rhs);
    lhs != Latest && rhs != Latest &&
    |l| >= 2 && |r| >= 2 && l[0] == r[0] && l[1] == r[1] &&
    !(|l| == 3 && |r| == 2) && !(|l| == 2 && |r| == 3)
  }

  /** `lhs < rhs` as written reads a patch component only where both have one. */
  predicate LessAsWrittenDefined(lhs: MinecraftVersion, rhs: MinecraftVersion) {
    ReachesPatch(lhs, rhs) ==> |Components(lhs)| >= 3 && |Components(rhs)| >= 3
  }

  /** `lhs < rhs` exactly as written: its last step indexes the patch components. */
  function LessAsWritten(lhs: MinecraftVersion, rhs: MinecraftVersion): bool
    requires LessAsWrittenDefined(lhs, rhs)
  {
    var l, r := Components(lhs), Components(rhs);
    if lhs == Latest && rhs != Latest then false
    else if lhs != Latest && rhs == Latest then true
    else if lhs == Latest && rhs == Latest then false
    else if !(|l| >= 2 && |r| >= 2) then false
    else if l[0] < r[0] then true
    else if l[0] > r[0] then false
    else if l[1] < r[1] then true
    else if l[1] > r[1] then false
    else if |l| == 3 && |r| == 2 then false
    else if |l| == 2 && |r| == 3 then true
    else l[2] < r[2]
  }

  /**
    `lhs < rhs` with the last step completed: a version without a patch
    component sorts below any longer one with the same major and minor
    components, and two such versions are not below each other.
  */
  function Less(lhs: MinecraftVersion, rhs: MinecraftVersion): bool {
    var l, r := Components(lhs), Components(rhs);
    if lhs == Latest && rhs != Latest then false
    else if lhs != Latest && rhs == Latest then true
    else if lhs == Latest && rhs == Latest then false
    else if !(|l| >= 2 && |r| >= 2) then false
    else if l[0] < r[0] then true
    else if l[0] > r[0] then false
    else if l[1] < r[1] then true
    else if l[1] > r[1] then false
    else if |l| == 3 && |r| == 2 then false
    else if |l| == 2 && |r| == 3 then true
    else if |l| == 2 || |r| == 2 then |l| < |r|
    else l[2] < r[2]
  }

  // ---------------------------------------------------------------------------
  // Facts

  lemma ComponentsOfDotted(a: nat, b: nat)
    requires a <= UIntMax && b <= UIntMax
    ensures Components(MinecraftVersion(Dotted(a, b))) == [a, b]
  {
    SplitDotted(a, b);
    DottedIsNotWord(a, b, "latest");
    CompactMapPrinted3(a, b, 0);
  }

  /**
    As written, comparing two-part versions with equal major and minor
    components (for example `1.20 < 1.20`) reads a third component that
    neither has.
  */
  lemma EqualTwoPartVersionsTrap(a: nat, b: nat)
    requires a <= UIntMax && b <= UIntMax
    ensures !LessAsWrittenDefined(MinecraftVersion(Dotted(a, b)), MinecraftVersion(Dotted(a, b)))
  {
    ComponentsOfDotted(a, b);
    DottedIsNotWord(a, b, "latest");
  }

  /** The completed comparison agrees with the written one wherever that one does not trap. */
  lemma LessAgreesWhereDefined(lhs: MinecraftVersion, rhs: MinecraftVersion)
    requires LessAsWrittenDefined(lhs, rhs)
    ensures Less(lhs, rhs) == LessAsWritten(lhs, rhs)
  {
  }

  /** No version is below itself. */
  lemma LessIrreflexive(v: MinecraftVersion)
    ensures !Less(v, v)
  {
  }

  lemma LessAsymmetric(a: MinecraftVersion, b: MinecraftVersion)
    ensures Less(a, b) ==> !Less(b, a)
  {
  }

  lemma LessTransitive(a: MinecraftVersion, b: MinecraftVersion, c: MinecraftVersion)
    requires Less(a, b) && Less(b, c)
    ensures Less(a, c)
  {
  }

  /** `latest` is above every other version and below none. */
  lemma LatestIsTop(v: MinecraftVersion)
    requires v != Latest
    ensures Less(v, Latest) && !Less(Latest, v)
  {
  }

  /** A version with fewer than two numeric components is comparable only with `latest`. */
  lemma ShortVersionsIncomparable(v: MinecraftVersion, w: MinecraftVersion)
    requires v != Latest && w != Latest && |Components(v)| < 2
    ensures !Less(v, w) && !Less(w, v)
  {
  }

  /** `1.20` sorts below `1.20.x` for every patch `x`, and `1.20.x` below `1.21`. */
  lemma {:induction false} MinorReleaseOrder(a: nat, b: nat, x: nat)
    requires a <= UIntMax && b < UIntMax && x <= UIntMax
    ensures Less(MinecraftVersion(Dotted(a, b)), MinecraftVersion(Dotted(a, b) + "." + NatToString(x)))
    ensures Less(MinecraftVersion(Dotted(a, b) + "." + NatToString(x)), MinecraftVersion(Dotted(a, b + 1)))
  {
    var minor := MinecraftVersion(Dotted(a, b));
    var patch := MinecraftVersion(Dotted(a, b) + "." + NatToString(x));
    var next := MinecraftVersion(Dotted(a, b + 1));
    ComponentsOfDotted(a, b);
    ComponentsOfDotted(a, b + 1);
    ComponentsOfDottedPatch(a, b, x);
    assert minor != Latest && patch != Latest && next != Latest by {
      assert Components(Latest) == [];
    }
    assert Components(minor) == [a, b] && Components(patch) == [a, b, x] && Components(next) == [a, b + 1];
  }

  lemma ComponentsOfDottedPatch(a: nat, b: nat, x: nat)
    requires a <= UIntMax && b <= UIntMax && x <= UIntMax
    ensures Components(MinecraftVersion(Dotted(a, b) + "." + NatToString(x))) == [a, b, x]
  {
    var s := Dotted(a, b) + "." + NatToString(x);
    SplitDottedPatch(a, b, x);
    DottedIsNotWord(a, b, "latest");
    assert s[0] == Dotted(a, b)[0];
    CompactMapPrinted3(a, b, x);
  }
}
