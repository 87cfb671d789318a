/**
  The command-line options that pick what to build or run
  (`GameVersionOptions`): a game type and a game version, checked before any
  command runs.
*/
module GameVersionOptions {
  import opened Wrappers
  import opened Text
  import opened Minecraft

  datatype Options = Options(gameType: GameType, version: GameVersion)

  /** Without `--type` and `--version`: vanilla, latest. */
  const Default: Options := Options(Vanilla, Minecraft.Latest)

  /** Why `validate()` refuses the options. */
  datatype ValidationFailure =
    | EmptyMinecraftVersion
    | ModLoaderNotSupported(gameType: GameType)

  /** Only Fabric and Forge let the user pin a mod-loader version. */
  predicate TakesModLoaderVersion(t: GameType) {
    t == Fabric || t == Forge
  }

  /**
    `validate()`: the empty Minecraft version is refused first; a pinned
    mod-loader version is refused for every type that cannot take one.
  */
  function Validate(o: Options): (failure: Option<ValidationFailure>)
    ensures failure == Some(EmptyMinecraftVersion) <==> o.version.minecraft == []
    ensures failure.None? <==>
      o.version.minecraft != [] && (o.version.modLoader.Some? ==> TakesModLoaderVersion(o.gameType))
    ensures failure.Some? && failure.value.ModLoaderNotSupported? ==>
      failure.value.gameType == o.gameType && o.version.modLoader.Some?
  {
    if o.version.minecraft == [] then Some(EmptyMinecraftVersion)
    else if o.version.modLoader.Some? && !TakesModLoaderVersion(o.gameType) then Some(ModLoaderNotSupported(o.gameType))
    else None
  }

  const DescriptionLead: string := "Minecraft "
  const VersionLead: string := ", version "

  /** `description`: the type's description, then the version as it is written on the command line. */
  function Describe(o: Options): (text: string)
    ensures HasPrefix(text, DescriptionLead + o.gameType.Description() + VersionLead)
    ensures HasSuffix(text, Minecraft.Description(o.version))
  {
    var lead := DescriptionLead + o.gameType.Description() + VersionLead;
    var text := lead + Minecraft.Description(o.version);
    assert text[..|lead|] == lead;
    assert text[|text| - |Minecraft.Description(o.version)|..] == Minecraft.Description(o.version);
    text
  }

  // ---------------------------------------------------------------------------
  // Facts

  /** The defaults pass validation. */
  lemma DefaultIsValid()
    ensures Validate(Default).None?
    ensures Default.gameType == Vanilla && Default.version == Minecraft.Latest
  {
  }

  /** Without a pinned mod loader every type is accepted, as long as the version is not empty. */
  lemma AnyTypeWithoutLoader(t: GameType, minecraft: string)
    requires minecraft != []
    ensures Validate(Options(t, GameVersion(minecraft, None))).None?
  {
  }

  /** A pinned loader is refused for exactly the types other than Fabric and Forge. */
  lemma PinnedLoaderTypes(t: GameType, minecraft: string, loader: string)
    requires minecraft != []
    ensures Validate(Options(t, GameVersion(minecraft, Some(loader)))).None? <==> t in {Fabric, Forge}
    ensures t in {Vanilla, NeoForged, Quilt} ==>
      Validate(Options(t, GameVersion(minecraft, Some(loader)))) == Some(ModLoaderNotSupported(t))
  {
  }

  /**
    Knowing the type, the version can be read back from the description:
    what follows the lead is the version as written on the command line.
  */
  lemma {:induction false} VersionReadBack(o: Options)
    requires ':' !in o.version.minecraft
    requires o.version.modLoader.Some? ==>
      o.version.minecraft != [] && o.version.modLoader.value != [] && ':' !in o.version.modLoader.value
    ensures FromArgument(Describe(o)[|DescriptionLead + o.gameType.Description() + VersionLead|..]) == o.version
  {
    var lead := DescriptionLead + o.gameType.Description() + VersionLead;
    assert Describe(o)[|lead|..] == Minecraft.Description(o.version);
    DescriptionRoundTrip(o.version);
  }
}
