/**
  The game version and game type every runtime provider and the builder work
  with (`GameVersion`, `GameType`): a Minecraft version, optionally pinned to
  a mod-loader version, ordered by their dotted numeric components.
*/
module Minecraft {
  import opened Wrappers
  import opened Text

  datatype GameVersion = GameVersion(minecraft: string, modLoader: Option<string>)

  /** The sentinel for "whatever is newest". */
  const Latest: GameVersion := GameVersion("latest", None)
  /** The sentinel for "every available version". */
  const All: GameVersion := GameVersion("all", None)

  /** `minecraft`, followed by `:` and the mod-loader version when there is one. */
  function Description(v: GameVersion): string {
    match v.modLoader
    case None => v.minecraft
    case Some(loader) => v.minecraft + ":" + loader
  }

  /** The numeric components of the Minecraft version; none for the `latest` sentinel. */
  function MinecraftVersionComponents(v: GameVersion): seq<nat> {
    if v == Latest then [] else CompactMapUInt(Split(v.minecraft, '.'))
  }

  /** The numeric components of the mod-loader version, if one is pinned. */
  function ModLoaderVersionComponents(v: GameVersion): Option<seq<nat>> {
    if v == Latest then Some([])
    else
      match v.modLoader
      case None => None
      case Some(loader) => Some(CompactMapUInt(Split(loader, '.')))
  }

  /**
    The components the ordering uses: `latest` is `[UInt.max, 0, 0]`; a
    two-part version gets a `0` patch component; pieces that are not
    numbers are dropped.
  */
  function VersionComponents(s: string): seq<nat> {
    if s == "latest" then [UIntMax, 0, 0]
    else
      var parts := Split(s, '.');
      CompactMapUInt(if |parts| == 2 then parts + ["0"] else parts)
  }

  datatype Ordering = LessThan | GreaterThan | Equal

  /** `l` is below `r` by lexicographic order, decided at position `i`. */
  predicate BelowAt(l: seq<nat>, r: seq<nat>, i: nat) {
    i < |l| && i < |r| && l[..i] == r[..i] && l[i] < r[i]
  }

  /** The comparison reaches no component that one side lacks (which would trap). */
  predicate CompareDefined(l: seq<nat>, r: seq<nat>) {
    |l| >= 1 && |r| >= 1 &&
    (l[0] == r[0] ==> (|l| >= 2 && |r| >= 2 && (l[1] == r[1] ==> |l| >= 3 && |r| >= 3)))
  }

  /** Major, then minor, then patch component; later components are ignored. */
  function CompareComponents(l: seq<nat>, r: seq<nat>): (o: Ordering)
    requires CompareDefined(l, r)
    ensures o == LessThan <==> exists i :: 0 <= i < 3 && BelowAt(l, r, i)
    ensures o == GreaterThan <==> exists i :: 0 <= i < 3 && BelowAt(r, l, i)
    ensures o == Equal <==> |l| >= 3 && |r| >= 3 && l[..3] == r[..3]
  {
    assert l[..1] == [l[0]] && r[..1] == [r[0]];
    if l[0] < r[0] then
      assert BelowAt(l, r, 0);
      LexicalUnique(l, r, 0);
      LexicalUnique(r, l, 0);
      LessThan
    else if l[0] > r[0] then
      assert BelowAt(r, l, 0);
      LexicalUnique(l, r, 0);
      LexicalUnique(r, l, 0);
      GreaterThan
    else
      assert l[..2] == [l[0], l[1]] && r[..2] == [r[0], r[1]];
      if l[1] < r[1] then
        assert BelowAt(l, r, 1);
        LexicalUnique(l, r, 1);
        LexicalUnique(r, l, 1);
        LessThan
      else if l[1] > r[1] then
        assert BelowAt(r, l, 1);
        LexicalUnique(l, r, 1);
        LexicalUnique(r, l, 1);
        GreaterThan
      else
        assert l[..3] == [l[0], l[1], l[2]] && r[..3] == [r[0], r[1], r[2]];
        if l[2] < r[2] then
          assert BelowAt(l, r, 2);
          LexicalUnique(l, r, 2);
          LexicalUnique(r, l, 2);
          LessThan
        else if l[2] > r[2] then
          assert BelowAt(r, l, 2);
          LexicalUnique(l, r, 2);
          LexicalUnique(r, l, 2);
          GreaterThan
        else
          NoBelowWhenEqual(l, r);
          Equal
  }

  /** Once the prefixes up to `k` agree and `l[k] < r[k]`, that is the only deciding position. */
  lemma LexicalUnique(l: seq<nat>, r: seq<nat>, k: nat)
    requires k < |l| && k < |r| && l[..k] == r[..k] && l[k] != r[k]
    ensures forall i :: 0 <= i < 3 && BelowAt(l, r, i) ==> i == k
    ensures forall i :: 0 <= i < 3 && BelowAt(r, l, i) ==> i == k
    ensures |l| >= 3 && |r| >= 3 && k < 3 ==> l[..3] != r[..3]
  {
  }

  lemma NoBelowWhenEqual(l: seq<nat>, r: seq<nat>)
    requires |l| >= 3 && |r| >= 3 && l[..3] == r[..3]
    ensures forall i :: 0 <= i < 3 ==> !BelowAt(l, r, i) && !BelowAt(r, l, i)
  {
    forall i | 0 <= i < 3
      ensures !BelowAt(l, r, i) && !BelowAt(r, l, i)
    {
      assert l[i] == l[..3][i] == r[..3][i] == r[i];
    }
  }

  /** The private `compare(lhs:rhs:)` on two version strings. */
  function Compare(lhs: string, rhs: string): Ordering
    requires CompareDefined(VersionComponents(lhs), VersionComponents(rhs))
  {
    CompareComponents(VersionComponents(lhs), VersionComponents(rhs))
  }

  /** An absent mod-loader version stands for the latest one. */
  function LoaderOrLatest(v: GameVersion): string {
    v.modLoader.GetOr("latest")
  }

  /** Evaluating `lhs < rhs` reads no missing component. */
  predicate LessDefined(lhs: GameVersion, rhs: GameVersion) {
    CompareDefined(VersionComponents(lhs.minecraft), VersionComponents(rhs.minecraft)) &&
    (Compare(lhs.minecraft, rhs.minecraft) == Equal ==>
      CompareDefined(VersionComponents(LoaderOrLatest(lhs)), VersionComponents(LoaderOrLatest(rhs))))
  }

  /** `lhs < rhs`: by Minecraft version, then by mod-loader version. */
  function Less(lhs: GameVersion, rhs: GameVersion): bool
    requires LessDefined(lhs, rhs)
  {
    match Compare(lhs.minecraft, rhs.minecraft)
    case LessThan => true
    case GreaterThan => false
    case Equal => Compare(LoaderOrLatest(lhs), LoaderOrLatest(rhs)) == LessThan
  }

  /** `init?(argument:)`: `<minecraft>` or `<minecraft>:<loader>`. */
  function FromArgument(argument: string): GameVersion
    requires ':' in argument ==> Split(argument, ':') != []
  {
    if ':' in argument then
      var pieces := Split(argument, ':');
      GameVersion(pieces[0], Some(pieces[|pieces| - 1]))
    else
      GameVersion(argument, None)
  }

  // ---------------------------------------------------------------------------
  // Game type

  datatype GameType = Vanilla | Fabric | Forge | NeoForged | Quilt {
    /** The name used on the command line and in image labels. */
    function RawValue(): string {
      match this
      case Vanilla => "vanilla"
      case Fabric => "fabric"
      case Forge => "forge"
      case NeoForged => "neoForged"
      case Quilt => "quilt"
    }

    function Description(): string {
      match this
      case Vanilla => "Java edition (vanilla)"
      case Fabric => "Modded Java with the Fabric mod loader"
      case Forge => "Modded Java with the Forge mod loader"
      case NeoForged => "Modded Java with the NeoForged mod loader"
      case Quilt => "Modded Java with the Quilt mod loader"
    }

    /** Name of the `latest` image tag for this type of Minecraft. */
    function LatestTag(): string {
      if this == Vanilla then "latest" else RawValue() + "_latest"
    }
  }

  const GameTypes: seq<GameType> := [Vanilla, Fabric, Forge, NeoForged, Quilt]

  /**
    The name every modded provider gives its runtime, and so its image tag:
    `<minecraft>-<type>_<loader version>`.
  */
  function RuntimeName(minecraft: string, t: GameType, loaderVersion: string): (name: string)
    ensures HasSuffix(name, loaderVersion)
  {
    minecraft + "-" + t.RawValue() + "_" + loaderVersion
  }

  /** `GameType(rawValue:)`, which the command line uses to read the type. */
  function GameTypeFromRawValue(raw: string): (t: Option<GameType>)
    ensures t.Some? ==> t.value.RawValue() == raw
  {
    if raw == "vanilla" then Some(Vanilla)
    else if raw == "fabric" then Some(Fabric)
    else if raw == "forge" then Some(Forge)
    else if raw == "neoForged" then Some(NeoForged)
    else if raw == "quilt" then Some(Quilt)
    else None
  }

  // ---------------------------------------------------------------------------
  // Facts

  /** The comparison is defined symmetrically and flips with its arguments. */
  lemma CompareComponentsFlip(l: seq<nat>, r: seq<nat>)
    requires CompareDefined(l, r)
    ensures CompareDefined(r, l)
    ensures CompareComponents(r, l) ==
      match CompareComponents(l, r)
      case LessThan => GreaterThan
      case GreaterThan => LessThan
      case Equal => Equal
  {
  }

  /** Comparing a list of components with itself reads all three of them. */
  lemma CompareSelf(l: seq<nat>)
    ensures CompareDefined(l, l) <==> |l| >= 3
    ensures |l| >= 3 ==> CompareComponents(l, l) == Equal
  {
  }

  /** `LessThan` between component lists is transitive, and the third comparison never traps. */
  lemma {:induction false} CompareLessTransitive(a: seq<nat>, b: seq<nat>, c: seq<nat>)
    requires CompareDefined(a, b) && CompareComponents(a, b) == LessThan
    requires CompareDefined(b, c) && CompareComponents(b, c) == LessThan
    ensures CompareDefined(a, c) && CompareComponents(a, c) == LessThan
  {
    var i :| 0 <= i < 3 && BelowAt(a, b, i);
    var j :| 0 <= j < 3 && BelowAt(b, c, j);
    var k := if i < j then i else j;
    assert a[..k] == c[..k] by {
      assert a[..k] == a[..i][..k] == b[..i][..k] == b[..k];
      assert b[..k] == b[..j][..k] == c[..j][..k] == c[..k];
    }
    assert a[k] < c[k] by {
      if i < j {
        assert b[i] == b[..j][i] == c[..j][i] == c[i];
      } else if j < i {
        assert a[j] == a[..i][j] == b[..i][j] == b[j];
      }
    }
    assert BelowAt(a, c, k);
    DefinedByBelow(a, c, k);
  }

  /** A deciding position makes the comparison defined. */
  lemma DefinedByBelow(l: seq<nat>, r: seq<nat>, k: nat)
    requires k < 3 && BelowAt(l, r, k)
    ensures CompareDefined(l, r)
  {
    if k > 0 {
      assert l[0] == l[..k][0] == r[..k][0] == r[0];
    }
    if k > 1 {
      assert l[1] == l[..k][1] == r[..k][1] == r[1];
    }
  }

  /** Components agreeing on their first three entries compare alike with everything. */
  lemma CompareEqualSubstitutes(a: seq<nat>, b: seq<nat>, c: seq<nat>)
    requires CompareDefined(a, b) && CompareComponents(a, b) == Equal
    ensures CompareDefined(a, c) <==> CompareDefined(b, c)
    ensures CompareDefined(a, c) ==> CompareComponents(a, c) == CompareComponents(b, c)
    ensures CompareDefined(c, a) <==> CompareDefined(c, b)
    ensures CompareDefined(c, a) ==> CompareComponents(c, a) == CompareComponents(c, b)
  {
    assert a[..3] == b[..3];
    assert a[0] == a[..3][0] == b[..3][0] == b[0];
    assert a[1] == a[..3][1] == b[..3][1] == b[1];
    assert a[2] == a[..3][2] == b[..3][2] == b[2];
  }

  /** Equal outcomes chain. */
  lemma CompareEqualTransitive(a: seq<nat>, b: seq<nat>, c: seq<nat>)
    requires CompareDefined(a, b) && CompareComponents(a, b) == Equal
    requires CompareDefined(b, c) && CompareComponents(b, c) == Equal
    ensures CompareDefined(a, c) && CompareComponents(a, c) == Equal
  {
    CompareEqualSubstitutes(a, b, c);
  }

  /** No game version is below itself. */
  lemma LessIrreflexive(v: GameVersion)
    requires LessDefined(v, v)
    ensures !Less(v, v)
  {
    CompareSelf(VersionComponents(v.minecraft));
    CompareSelf(VersionComponents(LoaderOrLatest(v)));
  }

  /** `<` is asymmetric, and evaluating it the other way round never traps. */
  lemma LessAsymmetric(a: GameVersion, b: GameVersion)
    requires LessDefined(a, b)
    ensures LessDefined(b, a)
    ensures Less(a, b) ==> !Less(b, a)
  {
    CompareComponentsFlip(VersionComponents(a.minecraft), VersionComponents(b.minecraft));
    if Compare(a.minecraft, b.minecraft) == Equal {
      CompareComponentsFlip(VersionComponents(LoaderOrLatest(a)), VersionComponents(LoaderOrLatest(b)));
    }
  }

  /** `<` is transitive, and the comparison it implies never traps. */
  lemma LessTransitive(a: GameVersion, b: GameVersion, c: GameVersion)
    requires LessDefined(a, b) && Less(a, b)
    requires LessDefined(b, c) && Less(b, c)
    ensures LessDefined(a, c) && Less(a, c)
  {
    var am, bm, cm := VersionComponents(a.minecraft), VersionComponents(b.minecraft), VersionComponents(c.minecraft);
    var al, bl, cl := VersionComponents(LoaderOrLatest(a)), VersionComponents(LoaderOrLatest(b)), VersionComponents(LoaderOrLatest(c));
    if CompareComponents(am, bm) == LessThan {
      if CompareComponents(bm, cm) == LessThan {
        CompareLessTransitive(am, bm, cm);
      } else {
        CompareComponentsFlip(bm, cm);
        CompareEqualSubstitutes(cm, bm, am);
        CompareComponentsFlip(am, bm);
        CompareComponentsFlip(cm, am);
      }
    } else {
      if CompareComponents(bm, cm) == LessThan {
        CompareComponentsFlip(am, bm);
        CompareEqualSubstitutes(bm, am, cm);
      } else {
        CompareEqualTransitive(am, bm, cm);
        CompareLessTransitive(al, bl, cl);
      }
    }
  }

  /**
    Any version whose major component is a real number sorts below `latest`,
    whatever the mod loaders.
  */
  lemma BelowLatest(v: GameVersion, loader: Option<string>)
    requires VersionComponents(v.minecraft) != []
    requires VersionComponents(v.minecraft)[0] < UIntMax
    ensures LessDefined(v, GameVersion("latest", loader)) && Less(v, GameVersion("latest", loader))
    ensures LessDefined(GameVersion("latest", loader), v) && !Less(GameVersion("latest", loader), v)
  {
  }

  /** A version written as `a.b` reads as `[a, b, 0]`, the same as `a.b.0`. */
  lemma {:induction false} PatchDefaultsToZero(a: nat, b: nat)
    requires a <= UIntMax && b <= UIntMax
    ensures VersionComponents(Dotted(a, b)) == [a, b, 0]
    ensures VersionComponents(Dotted(a, b) + ".0") == [a, b, 0]
    ensures Compare(Dotted(a, b), Dotted(a, b) + ".0") == Equal
  {
    var patched := Dotted(a, b) + "." + NatToString(0);
    assert NatToString(0) == "0";
    assert Dotted(a, b) + ".0" == patched;
    SplitDotted(a, b);
    SplitDottedPatch(a, b, 0);
    DottedIsNotWord(a, b, "latest");
    assert patched[0] == Dotted(a, b)[0];
    CompactMapPrinted3(a, b, 0);
    assert [NatToString(a), NatToString(b)] + ["0"] == [NatToString(a), NatToString(b), NatToString(0)];
  }

  /** A version with no mod loader sorts with a mod loader pinned to `latest`. */
  lemma AbsentLoaderIsLatest(v: GameVersion, w: GameVersion)
    requires v.modLoader.None? && w.modLoader == Some("latest")
    requires LessDefined(v, w)
    ensures Compare(v.minecraft, w.minecraft) == Equal ==> !Less(v, w) && !Less(w, v)
  {
    LessAsymmetric(v, w);
    CompareSelf(VersionComponents("latest"));
  }

  /**
    On the same Minecraft version, a pinned numeric mod loader sorts below
    an absent one and never the reverse, since the absent loader reads as
    `latest`.
  */
  lemma PinnedLoaderBelowAbsent(m: string, l: string)
    requires |VersionComponents(m)| >= 3
    requires VersionComponents(l) != [] && VersionComponents(l)[0] < UIntMax
    ensures LessDefined(GameVersion(m, Some(l)), GameVersion(m, None))
    ensures LessDefined(GameVersion(m, None), GameVersion(m, Some(l)))
    ensures Less(GameVersion(m, Some(l)), GameVersion(m, None))
    ensures !Less(GameVersion(m, None), GameVersion(m, Some(l)))
  {
    CompareSelf(VersionComponents(m));
    assert VersionComponents("latest") == [UIntMax, 0, 0];
  }

  /** Printing a version and reading it back as a command-line argument gives it back. */
  lemma {:induction false} DescriptionRoundTrip(v: GameVersion)
    requires ':' !in v.minecraft
    requires v.modLoader.Some? ==> v.minecraft != [] && v.modLoader.value != [] && ':' !in v.modLoader.value
    ensures FromArgument(Description(v)) == v
  {
    if v.modLoader.Some? {
      var loader := v.modLoader.value;
      assert Description(v) == v.minecraft + [':'] + loader;
      SplitAround(v.minecraft, loader, ':');
      SplitSingle(v.minecraft, ':');
      SplitSingle(loader, ':');
      assert ':' in Description(v) by {
        assert Description(v)[|v.minecraft|] == ':';
      }
    }
  }

  /** Only the first and the last piece of an argument are kept; a leading `:` makes them one. */
  lemma {:induction false} ArgumentWithLeadingColon(p: string)
    requires p != [] && ':' !in p
    ensures FromArgument(":" + p) == GameVersion(p, Some(p))
  {
    assert ":" + p == [] + [':'] + p;
    SplitAround([], p, ':');
    SplitSingle(p, ':');
    assert (":" + p)[0] == ':';
  }

  /** The type names read back, and nothing else reads as a type. */
  lemma GameTypeRawValueRoundTrip(t: GameType, raw: string)
    ensures GameTypeFromRawValue(t.RawValue()) == Some(t)
    ensures GameTypeFromRawValue(raw) == Some(t) <==> raw == t.RawValue()
  {
  }

  /** Reads the game type back from the name of its `latest` tag. */
  function GameTypeOfLatestTag(tag: string): Option<GameType> {
    if tag == "latest" then Some(Vanilla)
    else if |tag| > 7 && tag[|tag| - 7..] == "_latest" then
      match GameTypeFromRawValue(tag[..|tag| - 7])
      case Some(Vanilla) => None
      case other => other
    else None
  }

  /** Every game type gets its own `latest` tag, and the tag names the type. */
  lemma {:induction false} LatestTagIdentifiesType(t: GameType)
    ensures GameTypeOfLatestTag(t.LatestTag()) == Some(t)
  {
    if t != Vanilla {
      var tag := t.LatestTag();
      assert tag[..|tag| - 7] == t.RawValue();
      assert tag[|tag| - 7..] == "_latest";
    }
  }

  lemma LatestTagInjective(s: GameType, t: GameType)
    ensures s.LatestTag() == t.LatestTag() <==> s == t
  {
    LatestTagIdentifiesType(s);
    LatestTagIdentifiesType(t);
  }

  /** For one Minecraft version and type, different loader versions give different names. */
  lemma RuntimeNameInjective(minecraft: string, t: GameType, a: string, b: string)
    requires RuntimeName(minecraft, t, a) == RuntimeName(minecraft, t, b)
    ensures a == b
  {
    var prefix := minecraft + "-" + t.RawValue() + "_";
    assert RuntimeName(minecraft, t, a) == prefix + a;
    assert RuntimeName(minecraft, t, b) == prefix + b;
    assert a == (prefix + a)[|prefix|..];
    assert b == (prefix + b)[|prefix|..];
  }
}
