/**
  The older Fabric provider, written against `MinecraftVersion`. It differs
  from `FabricRuntime` in its selection rules: no `+` exclusion, no pinned
  loader, availability by a stable-only probe, and a membership guard in
  `runtime`.
*/
module FabricRuntimeProvider {
  import opened Wrappers
  import opened Exceptions
  import opened Network
  import opened Seqs
  import opened MinecraftVersionType
  import opened JavaVersion
  import Minecraft
  import Defaults
  import DownloaderProtocol

  datatype LoaderInfo = LoaderInfo(build: nat, version: string, stable: bool)

  datatype Intermediary = Intermediary(version: string, stable: bool)

  datatype FabricLoader = FabricLoader(loader: LoaderInfo, intermediary: Intermediary)

  datatype FabricInstaller = FabricInstaller(url: string, version: string, stable: bool)

  function JarDownloadUrl(minecraft: string, loader: string, installer: string): string {
    "https://meta.fabricmc.net/v2/versions/loader/" + minecraft + "/" + loader + "/" + installer + "/server/jar"
  }

  /** The older `FabricRuntime`: as the newer one, but started without the JVM argument file. */
  function MakeRuntime(version: MinecraftVersion, url: string, name: string, javaVersion: Option<JavaVersion>): DownloaderProtocol.Runtime {
    DownloaderProtocol.Runtime(
      gameType := Minecraft.Fabric,
      version := version,
      url := url,
      name := name,
      executableName := "fabric_server.jar",
      installCommands := ["ADD \"" + url + "\" " + Defaults.HomeDirectory + "/fabric_server.jar"],
      startCommand := "java -jar fabric_server.jar nogui",
      mappedVolumes := Defaults.MappedVolumes + ["mods"],
      javaVersion := javaVersion)
  }

  /** Eligibility depends on the stability flags only. */
  predicate Eligible(l: FabricLoader, allowUnstable: bool) {
    allowUnstable || (l.loader.stable && l.intermediary.stable)
  }

  /**
    `latestFabricLoader(for:allowUnstable:)`: the first eligible loader. An
    empty choice is thrown inside the decoding block, so it is reported as
    invalid data.
  */
  function LatestFabricLoader(reply: Response<seq<FabricLoader>>, allowUnstable: bool): (loader: Outcome<FabricLoader>)
    ensures Usable(reply) ==> (loader.Err? <==> forall l :: l in reply.payload.value ==> !Eligible(l, allowUnstable))
    ensures Usable(reply) && loader.Err? ==> loader == Err(ServerDownload(InvalidData))
    ensures !Usable(reply) ==> loader == Err(Receive(reply).error)
    ensures loader.Ok? ==>
      exists k :: 0 <= k < |reply.payload.value| && reply.payload.value[k] == loader.value &&
        Eligible(loader.value, allowUnstable) && forall j :: 0 <= j < k ==> !Eligible(reply.payload.value[j], allowUnstable)
  {
    var loaders :- Receive(reply);
    var k := FirstIndex(loaders, (l: FabricLoader) => Eligible(l, allowUnstable));
    if k < |loaders| then Ok(loaders[k]) else Err(ServerDownload(InvalidData))
  }

  /** `latestInstaller(allowUnstable:)`: the first installer that is stable, or any when unstable ones are allowed. */
  function LatestInstaller(reply: Response<seq<FabricInstaller>>, allowUnstable: bool): (installer: Outcome<FabricInstaller>)
    ensures Usable(reply) ==> (installer.Err? <==> forall i :: i in reply.payload.value ==> !(allowUnstable || i.stable))
    ensures Usable(reply) && installer.Err? ==> installer == Err(ServerDownload(InvalidData))
    ensures !Usable(reply) ==> installer == Err(Receive(reply).error)
    ensures installer.Ok? ==> installer.value in reply.payload.value && (allowUnstable || installer.value.stable)
    ensures installer.Ok? ==>
      exists k :: 0 <= k < |reply.payload.value| && reply.payload.value[k] == installer.value &&
        forall j :: 0 <= j < k ==> !(allowUnstable || reply.payload.value[j].stable)
    ensures installer.Ok? && allowUnstable ==> installer.value == reply.payload.value[0]
  {
    var installers :- Receive(reply);
    var k := FirstIndex(installers, (i: FabricInstaller) => allowUnstable || i.stable);
    if k < |installers| then Ok(installers[k]) else Err(ServerDownload(InvalidData))
  }

  /** A release is offered when its stable-only loader probe succeeds. */
  predicate Supported(release: MinecraftVersion, probe: string -> Response<seq<FabricLoader>>) {
    LatestFabricLoader(probe(release.rawValue), false).Ok?
  }

  function SupportedBy(probe: string -> Response<seq<FabricLoader>>): MinecraftVersion -> bool {
    release => Supported(release, probe)
  }

  /** One task of `availableVersions`: the release when `latestFabricLoader(for:)` succeeds for it, otherwise nothing. */
  method ProbeRelease(release: MinecraftVersion, probe: string -> Response<seq<FabricLoader>>)
    returns (found: Option<MinecraftVersion>)
    ensures found.Some? <==> Supported(release, probe)
    ensures found.Some? ==> found.value == release
  {
    var loader := LatestFabricLoader(probe(release.rawValue), false);
    if loader.Err? {
      return None;
    }
    return Some(release);
  }

  /**
    `availableVersions`: the vanilla releases whose probe succeeds, probed
    one by one (the source probes them concurrently).
  */
  method AvailableVersions(vanilla: Outcome<seq<MinecraftVersion>>, probe: string -> Response<seq<FabricLoader>>)
    returns (versions: Outcome<seq<MinecraftVersion>>)
    ensures vanilla.Err? ==> versions == Err(vanilla.error)
    ensures vanilla.Ok? ==> versions == Ok(Filter(vanilla.value, SupportedBy(probe)))
  {
    if vanilla.Err? {
      return Err(vanilla.error);
    }
    var releases := vanilla.value;
    var kept: seq<MinecraftVersion> := [];
    for i := 0 to |releases|
      invariant kept == Filter(releases[..i], SupportedBy(probe))
    {
      assert releases[..i + 1] == releases[..i] + [releases[i]];
      FilterSnoc(releases[..i], releases[i], SupportedBy(probe));
      var found := ProbeRelease(releases[i], probe);
      if found.Some? {
        kept := kept + [found.value];
      }
    }
    assert releases[..|releases|] == releases;
    versions := Ok(kept);
  }

  /**
    `runtime(for:)`: a version outside `availableVersions` is rejected
    before any loader is looked up; then the stable loader, the stable
    installer and the vanilla Java version, the first failure being the
    result.
  */
  function Runtime(version: MinecraftVersion, available: Outcome<seq<MinecraftVersion>>, loaderReply: Response<seq<FabricLoader>>,
                   installerReply: Response<seq<FabricInstaller>>, javaVersion: Outcome<nat>)
    : (runtime: Outcome<DownloaderProtocol.Runtime>)
    ensures available.Err? ==> runtime == Err(available.error)
    ensures available.Ok? && version !in available.value ==> runtime == Err(InvalidMinecraftVersion)
    ensures available.Ok? && version in available.value && LatestFabricLoader(loaderReply, false).Err? ==>
      runtime == Err(LatestFabricLoader(loaderReply, false).error)
    ensures (available.Ok? && version in available.value && LatestFabricLoader(loaderReply, false).Ok? &&
             LatestInstaller(installerReply, false).Err?) ==>
      runtime == Err(LatestInstaller(installerReply, false).error)
    ensures (available.Ok? && version in available.value && LatestFabricLoader(loaderReply, false).Ok? &&
             LatestInstaller(installerReply, false).Ok? && javaVersion.Err?) ==>
      runtime == Err(javaVersion.error)
    ensures runtime.Ok? <==>
      available.Ok? && version in available.value && LatestFabricLoader(loaderReply, false).Ok? &&
      LatestInstaller(installerReply, false).Ok? && javaVersion.Ok?
    ensures runtime.Ok? ==>
      var loader := LatestFabricLoader(loaderReply, false).value.loader.version;
      && runtime.value.name == Minecraft.RuntimeName(version.rawValue, Minecraft.Fabric, loader)
      && runtime.value.url == JarDownloadUrl(version.rawValue, loader, LatestInstaller(installerReply, false).value.version)
      && runtime.value.javaVersion == FromRawValue(javaVersion.value)
  {
    var versions :- available;
    if version !in versions then Err(InvalidMinecraftVersion)
    else
      var loader :- LatestFabricLoader(loaderReply, false);
      var installer :- LatestInstaller(installerReply, false);
      var java :- javaVersion;
      var url := JarDownloadUrl(version.rawValue, loader.loader.version, installer.version);
      Ok(MakeRuntime(version, url, Minecraft.RuntimeName(version.rawValue, Minecraft.Fabric, loader.loader.version), FromRawValue(java)))
  }

  // ---------------------------------------------------------------------------
  // Facts

  /** With unstable loaders allowed, the first loader of the reply is taken, whatever its version. */
  lemma UnstableTakesFirst(reply: Response<seq<FabricLoader>>)
    requires Usable(reply) && reply.payload.value != []
    ensures LatestFabricLoader(reply, true) == Ok(reply.payload.value[0])
  {
  }

  /** A release is offered exactly when its loader reply is usable and lists a loader with both stable flags. */
  lemma SupportedExactly(release: MinecraftVersion, probe: string -> Response<seq<FabricLoader>>)
    ensures Supported(release, probe) <==>
      Usable(probe(release.rawValue)) &&
      exists l :: l in probe(release.rawValue).payload.value && l.loader.stable && l.intermediary.stable
  {
  }

  /** The offered versions are vanilla releases, carried over unchanged and in order. */
  lemma AvailableAreReleases(releases: seq<MinecraftVersion>, probe: string -> Response<seq<FabricLoader>>, v: MinecraftVersion)
    ensures v in Filter(releases, SupportedBy(probe)) <==> v in releases && Supported(v, probe)
  {
    FilterMembers(releases, SupportedBy(probe), v);
  }
}
