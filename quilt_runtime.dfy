/**
  The Quilt provider (`QuiltRuntime`, `QuiltRuntimeProvider`). Quilt ships
  one universal installer, so every Minecraft release the vanilla provider
  offers is available, and the installer is always the last version listed on
  the Maven page; the Minecraft version is handed to the installer instead.

  The page is given parsed: one entry per `<p>` element, holding what
  selecting its `<a>` element yields.
*/
module QuiltRuntime {
  import opened Wrappers
  import opened Exceptions
  import opened Network
  import opened Text
  import opened Minecraft
  import opened JavaVersion
  import Defaults
  import RuntimesProtocol

  /** What selecting the `<a>` of a paragraph yields: whether it has an `href`, and its text (`None` when reading it throws). */
  datatype Link = Link(hasHref: bool, text: Option<string>)

  /** A `<p>` element; `link` is `None` when selecting its anchor throws. */
  datatype Paragraph = Paragraph(link: Option<Link>)

  datatype QuiltVersion = QuiltVersion(version: string)

  const VersionListUrl: string := "https://maven.quiltmc.org/repository/release/org/quiltmc/quilt-installer/"

  /** `installerUrl(base:)`: the version's directory, then its installer jar. */
  function InstallerUrl(v: QuiltVersion): string {
    VersionListUrl + v.version + "/quilt-installer-" + v.version + ".jar"
  }

  /** The installer step: it installs the server for the requested version, loader included. */
  function InstallStep(version: GameVersion): string {
    "RUN java -jar quilt_installer.jar install server " + Description(version) +
      " --install-dir=" + Defaults.HomeDirectory + " --download-server"
  }

  /** `QuiltRuntime`. */
  function MakeRuntime(version: GameVersion, url: string, name: string, javaVersion: Option<JavaVersion>): RuntimesProtocol.Runtime {
    RuntimesProtocol.Runtime(
      gameType := Quilt,
      version := version,
      url := url,
      name := name,
      executableName := "quilt_installer.jar",
      installCommands := [
        "WORKDIR /tmp",
        "ADD \"" + url + "\" ./quilt_installer.jar",
        InstallStep(version),
        "WORKDIR " + Defaults.HomeDirectory,
        "RUN rm -rf /tmp"],
      startCommand := "java $(cat user_jvm_args.txt) -jar quilt-server-launch.jar $@",
      mappedVolumes := Defaults.MappedVolumes + ["mods"],
      javaVersion := javaVersion)
  }

  /** A paragraph names a version when its anchor has an `href` and a text ending in `/` that does not mention `native`. */
  predicate Lists(p: Paragraph) {
    && p.link.Some? && p.link.value.hasHref && p.link.value.text.Some?
    && HasSuffix(p.link.value.text.value, "/")
    && !Contains(p.link.value.text.value, "native")
  }

  /** `versions(from:)`: the versions the paragraphs name, `/` removed, in page order. */
  function Versions(paragraphs: seq<Paragraph>): (versions: seq<QuiltVersion>)
    ensures |versions| <= |paragraphs|
    ensures forall v :: v in versions ==> '/' !in v.version
  {
    if paragraphs == [] then []
    else
      var rest := Versions(paragraphs[1..]);
      if Lists(paragraphs[0]) then [QuiltVersion(RemoveChar(paragraphs[0].link.value.text.value, '/'))] + rest
      else rest
  }

  /** `latestVersion(from:)`: the page lists versions in order, so the last one. `None` is a page that does not parse. */
  function LatestVersion(page: Option<seq<Paragraph>>): (latest: Option<QuiltVersion>)
    ensures latest.None? <==> page.None? || Versions(page.value) == []
    ensures latest.Some? ==> latest.value == Versions(page.value)[|Versions(page.value)| - 1]
  {
    if page.None? || Versions(page.value) == [] then None
    else Some(Versions(page.value)[|Versions(page.value)| - 1])
  }

  /**
    `latestInstaller`: the page is decoded as UTF-8 before its status is
    checked; a page without a version is a `serverDownload` error.
  */
  function LatestInstaller(reply: Response<Option<seq<Paragraph>>>): (installer: Outcome<QuiltVersion>)
    ensures installer.Ok? <==> Usable(reply) && LatestVersion(reply.payload.value).Some?
    ensures installer.Ok? ==> installer.value == LatestVersion(reply.payload.value).value
    ensures !Usable(reply) ==> installer == Err(ReceiveDecodedFirst(reply).error)
    ensures Usable(reply) && installer.Err? ==> installer == Err(ServerDownload(NotFound))
  {
    var page :- ReceiveDecodedFirst(reply);
    match LatestVersion(page)
    case None => Err(ServerDownload(NotFound))
    case Some(v) => Ok(v)
  }

  /** `availableVersions`: exactly the vanilla provider's releases. */
  function AvailableVersions(vanilla: Outcome<seq<GameVersion>>): (versions: Outcome<seq<GameVersion>>)
    ensures versions.Ok? <==> vanilla.Ok?
    ensures versions.Ok? ==> forall v :: v in versions.value <==> v in vanilla.value
  {
    vanilla
  }

  /** `runtime(for:)`: the latest installer, then the vanilla Java version. */
  function Runtime(version: GameVersion, reply: Response<Option<seq<Paragraph>>>, javaVersion: Outcome<nat>)
    : (runtime: Outcome<RuntimesProtocol.Runtime>)
    ensures LatestInstaller(reply).Err? ==> runtime == Err(LatestInstaller(reply).error)
    ensures LatestInstaller(reply).Ok? && javaVersion.Err? ==> runtime == Err(javaVersion.error)
    ensures runtime.Ok? <==> LatestInstaller(reply).Ok? && javaVersion.Ok?
    ensures runtime.Ok? ==>
      var quilt := LatestInstaller(reply).value;
      && runtime.value.url == InstallerUrl(quilt)
      && runtime.value.name == RuntimeName(version.minecraft, Quilt, quilt.version)
      && InstallStep(version) in runtime.value.installCommands
      && runtime.value.javaVersion == FromRawValue(javaVersion.value)
  {
    var quilt :- LatestInstaller(reply);
    var java :- javaVersion;
    Ok(MakeRuntime(version, InstallerUrl(quilt), RuntimeName(version.minecraft, Quilt, quilt.version), FromRawValue(java)))
  }

  // ---------------------------------------------------------------------------
  // Facts

  /** Every version is built from the same installer download; only the name and the install step differ. */
  lemma InstallerIndependentOfVersion(a: GameVersion, b: GameVersion, reply: Response<Option<seq<Paragraph>>>, java: nat)
    requires Runtime(a, reply, Ok(java)).Ok?
    ensures Runtime(b, reply, Ok(java)).Ok?
    ensures Runtime(a, reply, Ok(java)).value.url == Runtime(b, reply, Ok(java)).value.url
    ensures Runtime(a, reply, Ok(java)).value.executableName == Runtime(b, reply, Ok(java)).value.executableName
  {
  }

  /** A pinned loader version reaches the installer as `minecraft:loader`. */
  lemma PinnedLoaderReachesInstaller(minecraft: string, loader: string)
    ensures Contains(InstallStep(GameVersion(minecraft, Some(loader))), minecraft + ":" + loader)
  {
    var prefix := "RUN java -jar quilt_installer.jar install server ";
    var suffix := " --install-dir=" + Defaults.HomeDirectory + " --download-server";
    assert InstallStep(GameVersion(minecraft, Some(loader))) == prefix + (minecraft + ":" + loader) + suffix;
    ContainsMiddle(prefix, minecraft + ":" + loader, suffix);
  }

  /** Native builds are never listed, so never chosen. */
  lemma {:induction false} NativeNeverListed(paragraphs: seq<Paragraph>, text: string)
    requires Contains(text, "native")
    ensures forall v :: v in Versions(paragraphs + [Paragraph(Some(Link(true, Some(text))))]) ==> v in Versions(paragraphs)
  {
    if paragraphs == [] {
      assert Versions([Paragraph(Some(Link(true, Some(text))))]) == [];
    } else {
      assert (paragraphs + [Paragraph(Some(Link(true, Some(text))))])[1..] == paragraphs[1..] + [Paragraph(Some(Link(true, Some(text))))];
      NativeNeverListed(paragraphs[1..], text);
    }
  }

  /** A listed version appended at the end of the page becomes the installer. */
  lemma {:induction false} LastListedWins(paragraphs: seq<Paragraph>, p: Paragraph)
    requires Lists(p)
    ensures LatestVersion(Some(paragraphs + [p])) == Some(QuiltVersion(RemoveChar(p.link.value.text.value, '/')))
  {
    VersionsAppend(paragraphs, [p]);
  }

  lemma {:induction false} VersionsAppend(a: seq<Paragraph>, b: seq<Paragraph>)
    ensures Versions(a + b) == Versions(a) + Versions(b)
  {
    if a == [] {
      assert a + b == b;
    } else {
      assert (a + b)[1..] == a[1..] + b;
      VersionsAppend(a[1..], b);
    }
  }
}
