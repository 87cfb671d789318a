/**
  The Fabric provider (`FabricRuntime`, `FabricRuntimeProvider`): loaders
  and installers come from Fabric's meta service; the server jar is
  assembled there from a Minecraft version, a loader and an installer.

  The answers of the vanilla provider it consults (the release list and the
  Java version of a release) are parameters.
*/
module FabricRuntime {
  import opened Wrappers
  import opened Exceptions
  import opened Network
  import opened Text
  import opened Seqs
  import opened Minecraft
  import opened JavaVersion
  import Defaults
  import RuntimesProtocol

  datatype LoaderInfo = LoaderInfo(build: nat, version: string, stable: bool)

  datatype Intermediary = Intermediary(version: string, stable: bool)

  datatype FabricLoader = FabricLoader(loader: LoaderInfo, intermediary: Intermediary)

  datatype FabricInstaller = FabricInstaller(url: string, version: string, stable: bool)

  const MetaVersions: string := "https://meta.fabricmc.net/v2/versions"

  function LoaderJsonUrl(minecraft: string): string {
    MetaVersions + "/loader/" + minecraft
  }

  const InstallerJsonUrl: string := MetaVersions + "/installer"

  function JarDownloadUrl(minecraft: string, loader: string, installer: string): string {
    MetaVersions + "/loader/" + minecraft + "/" + loader + "/" + installer + "/server/jar"
  }

  /** `FabricRuntime`: the assembled jar is downloaded straight into the home directory. */
  function MakeRuntime(version: GameVersion, url: string, name: string, javaVersion: Option<JavaVersion>): RuntimesProtocol.Runtime {
    RuntimesProtocol.Runtime(
      gameType := Fabric,
      version := version,
      url := url,
      name := name,
      executableName := "fabric_server.jar",
      installCommands := ["ADD \"" + url + "\" " + Defaults.HomeDirectory + "/fabric_server.jar"],
      startCommand := "java $(cat user_jvm_args.txt) -jar fabric_server.jar nogui",
      mappedVolumes := Defaults.MappedVolumes + ["mods"],
      javaVersion := javaVersion)
  }

  // ---------------------------------------------------------------------------
  // Selection rules

  predicate Stable(l: FabricLoader) {
    l.loader.stable && l.intermediary.stable
  }

  /** Loaders with a `+` in their version are never kept; the others need both stable flags unless unstable ones are allowed. */
  predicate Eligible(l: FabricLoader, allowUnstable: bool) {
    !Contains(l.loader.version, "+") && (Stable(l) || allowUnstable)
  }

  function EligibleFor(allowUnstable: bool): FabricLoader -> bool {
    l => Eligible(l, allowUnstable)
  }

  /** `fabricLoaders(for:allowUnstable:)`: the eligible loaders of the reply, in reply order. */
  function FabricLoaders(reply: Response<seq<FabricLoader>>, allowUnstable: bool): (loaders: Outcome<seq<FabricLoader>>)
    ensures loaders.Ok? <==> Usable(reply)
    ensures loaders.Err? ==> loaders == Err(Receive(reply).error)
    ensures loaders.Ok? ==> forall l :: l in loaders.value <==> l in reply.payload.value && Eligible(l, allowUnstable)
  {
    var decoded :- Receive(reply);
    var kept := Filter(decoded, EligibleFor(allowUnstable));
    assert forall l :: l in kept <==> l in decoded && Eligible(l, allowUnstable) by {
      forall l {
        FilterMembers(decoded, EligibleFor(allowUnstable), l);
      }
    }
    Ok(kept)
  }

  /**
    `latestFabricLoader(for:)`: the first eligible stable loader; none is a
    `serverDownload` error.
  */
  function LatestFabricLoader(reply: Response<seq<FabricLoader>>): (loader: Outcome<FabricLoader>)
    ensures Usable(reply) ==> (loader.Err? <==> forall l :: l in reply.payload.value ==> !Eligible(l, false))
    ensures Usable(reply) && loader.Err? ==> loader == Err(ServerDownload(NotFound))
    ensures !Usable(reply) ==> loader == Err(Receive(reply).error)
    ensures loader.Ok? ==>
      exists k :: 0 <= k < |reply.payload.value| && reply.payload.value[k] == loader.value &&
        Eligible(loader.value, false) && forall j :: 0 <= j < k ==> !Eligible(reply.payload.value[j], false)
  {
    var loaders :- FabricLoaders(reply, false);
    if loaders == [] then Err(ServerDownload(NotFound))
    else
      var decoded := reply.payload.value;
      FirstIsHeadOfFilter(decoded, EligibleFor(false));
      assert decoded[FirstIndex(decoded, EligibleFor(false))] == loaders[0];
      Ok(loaders[0])
  }

  /**
    The loader of a pinned request: the first loader, unstable ones allowed,
    whose version is exactly the requested one; none is an invalid game
    version.
  */
  function PinnedFabricLoader(reply: Response<seq<FabricLoader>>, modLoader: string): (loader: Outcome<FabricLoader>)
    ensures Usable(reply) ==> (loader.Err? <==> forall l :: l in reply.payload.value ==> !(Eligible(l, true) && l.loader.version == modLoader))
    ensures Usable(reply) && loader.Err? ==> loader == Err(InvalidGameVersion)
    ensures !Usable(reply) ==> loader == Err(Receive(reply).error)
    ensures loader.Ok? ==> loader.value in reply.payload.value && Eligible(loader.value, true) && loader.value.loader.version == modLoader
    ensures loader.Ok? ==>
      exists k :: 0 <= k < |reply.payload.value| && reply.payload.value[k] == loader.value &&
        forall j :: 0 <= j < k ==> !(Eligible(reply.payload.value[j], true) && reply.payload.value[j].loader.version == modLoader)
  {
    var loaders :- FabricLoaders(reply, true);
    FirstOfFilter(reply.payload.value, EligibleFor(true), (l: FabricLoader) => l.loader.version == modLoader);
    match First(loaders, (l: FabricLoader) => l.loader.version == modLoader)
    case None => Err(InvalidGameVersion)
    case Some(l) => Ok(l)
  }

  /** The loader a request resolves to: the pinned one, or the latest stable one. */
  function ResolveLoader(version: GameVersion, reply: Response<seq<FabricLoader>>): Outcome<FabricLoader> {
    if version.modLoader.Some? then PinnedFabricLoader(reply, version.modLoader.value) else LatestFabricLoader(reply)
  }

  /**
    `latestInstaller(allowUnstable:)`: the first installer that is stable
    (any installer when unstable ones are allowed). An empty choice is thrown
    inside the decoding block, so it is reported as invalid data.
  */
  function LatestInstaller(reply: Response<seq<FabricInstaller>>, allowUnstable: bool): (installer: Outcome<FabricInstaller>)
    ensures Usable(reply) ==> (installer.Err? <==> forall i :: i in reply.payload.value ==> !(allowUnstable || i.stable))
    ensures Usable(reply) && installer.Err? ==> installer == Err(ServerDownload(InvalidData))
    ensures !Usable(reply) ==> installer == Err(Receive(reply).error)
    ensures installer.Ok? ==>
      exists k :: 0 <= k < |reply.payload.value| && reply.payload.value[k] == installer.value &&
        (allowUnstable || installer.value.stable) && forall j :: 0 <= j < k ==> !(allowUnstable || reply.payload.value[j].stable)
  {
    var installers :- Receive(reply);
    var k := FirstIndex(installers, (i: FabricInstaller) => allowUnstable || i.stable);
    if k < |installers| then Ok(installers[k]) else Err(ServerDownload(InvalidData))
  }

  /**
    `runtime(for:)`: the loader, then the installer (stable only), then the
    vanilla Java version; the first failure is the result.
  */
  function Runtime(version: GameVersion, loaderReply: Response<seq<FabricLoader>>, installerReply: Response<seq<FabricInstaller>>, javaVersion: Outcome<nat>)
    : (runtime: Outcome<RuntimesProtocol.Runtime>)
    ensures ResolveLoader(version, loaderReply).Err? ==> runtime == Err(ResolveLoader(version, loaderReply).error)
    ensures ResolveLoader(version, loaderReply).Ok? && LatestInstaller(installerReply, false).Err? ==>
      runtime == Err(LatestInstaller(installerReply, false).error)
    ensures ResolveLoader(version, loaderReply).Ok? && LatestInstaller(installerReply, false).Ok? && javaVersion.Err? ==>
      runtime == Err(javaVersion.error)
    ensures runtime.Ok? <==> ResolveLoader(version, loaderReply).Ok? && LatestInstaller(installerReply, false).Ok? && javaVersion.Ok?
    ensures runtime.Ok? ==>
      var loader := ResolveLoader(version, loaderReply).value.loader.version;
      var installer := LatestInstaller(installerReply, false).value.version;
      && runtime.value.url == JarDownloadUrl(version.minecraft, loader, installer)
      && runtime.value.name == RuntimeName(version.minecraft, Fabric, loader)
      && runtime.value.version == version
      && runtime.value.javaVersion == FromRawValue(javaVersion.value)
    ensures runtime.Ok? ==> runtime.value.mappedVolumes == ["world", "configurations", "mods"]
  {
    var loader :- ResolveLoader(version, loaderReply);
    var installer :- LatestInstaller(installerReply, false);
    var java :- javaVersion;
    var url := JarDownloadUrl(version.minecraft, loader.loader.version, installer.version);
    Ok(MakeRuntime(version, url, RuntimeName(version.minecraft, Fabric, loader.loader.version), FromRawValue(java)))
  }

  // ---------------------------------------------------------------------------
  // Availability

  /** What the probe of one vanilla release contributes: one version per loader, unstable ones included. */
  function Probe(release: GameVersion, probe: string -> Response<seq<FabricLoader>>): seq<GameVersion> {
    match FabricLoaders(probe(release.minecraft), true)
    case Err(_) => []
    case Ok(loaders) => seq(|loaders|, k requires 0 <= k < |loaders| => GameVersion(release.minecraft, Some(loaders[k].loader.version)))
  }

  function ProbeWith(probe: string -> Response<seq<FabricLoader>>): GameVersion -> seq<GameVersion> {
    release => Probe(release, probe)
  }

  /**
    `availableVersions`: the releases are probed one by one (the source
    probes them concurrently) and the contributions appended.
  */
  method AvailableVersions(vanilla: Outcome<seq<GameVersion>>, probe: string -> Response<seq<FabricLoader>>)
    returns (versions: Outcome<seq<GameVersion>>)
    ensures vanilla.Err? ==> versions == Err(vanilla.error)
    ensures vanilla.Ok? ==> versions == Ok(FlatMap(vanilla.value, ProbeWith(probe)))
  {
    if vanilla.Err? {
      return Err(vanilla.error);
    }
    var releases := vanilla.value;
    var all: seq<GameVersion> := [];
    for i := 0 to |releases|
      invariant all == FlatMap(releases[..i], ProbeWith(probe))
    {
      assert releases[..i + 1] == releases[..i] + [releases[i]];
      FlatMapSnoc(releases[..i], releases[i], ProbeWith(probe));
      all := all + Probe(releases[i], probe);
    }
    assert releases[..|releases|] == releases;
    versions := Ok(all);
  }

  // ---------------------------------------------------------------------------
  // Facts

  /** A loader whose version carries a `+` is never chosen, even when it is flagged stable. */
  lemma PlusLoadersNeverChosen(version: GameVersion, reply: Response<seq<FabricLoader>>)
    requires ResolveLoader(version, reply).Ok?
    ensures !Contains(ResolveLoader(version, reply).value.loader.version, "+")
  {
  }

  /** An unpinned request only ever gets a loader with both stable flags. */
  lemma UnpinnedLoaderIsStable(version: GameVersion, reply: Response<seq<FabricLoader>>)
    requires version.modLoader.None? && ResolveLoader(version, reply).Ok?
    ensures Stable(ResolveLoader(version, reply).value)
  {
  }

  /** A pinned request gets a runtime named after exactly the requested loader. */
  lemma PinnedRuntimeName(version: GameVersion, loaderReply: Response<seq<FabricLoader>>, installerReply: Response<seq<FabricInstaller>>, javaVersion: Outcome<nat>)
    requires version.modLoader.Some?
    requires Runtime(version, loaderReply, installerReply, javaVersion).Ok?
    ensures Runtime(version, loaderReply, installerReply, javaVersion).value.name == RuntimeName(version.minecraft, Fabric, version.modLoader.value)
  {
  }

  /** Relaxing stability only adds loaders: the stable list is a sublist of the unstable-allowed one. */
  lemma {:induction false} StableLoadersAmongAll(decoded: seq<FabricLoader>)
    ensures Filter(Filter(decoded, EligibleFor(true)), EligibleFor(false)) == Filter(decoded, EligibleFor(false))
  {
    FilterFilter(decoded, EligibleFor(true), EligibleFor(false));
  }

  /** The probe of a release contributes exactly its eligible loaders, each paired with the release. */
  lemma ProbeMembers(release: GameVersion, probe: string -> Response<seq<FabricLoader>>, v: GameVersion)
    ensures v in Probe(release, probe) <==>
      Usable(probe(release.minecraft)) && v.minecraft == release.minecraft && v.modLoader.Some? &&
      exists l :: l in probe(release.minecraft).payload.value && Eligible(l, true) && l.loader.version == v.modLoader.value
  {
    var reply := probe(release.minecraft);
    if Usable(reply) {
      var loaders := FabricLoaders(reply, true).value;
      if v in Probe(release, probe) {
        var k :| 0 <= k < |loaders| && Probe(release, probe)[k] == v;
        assert loaders[k] in reply.payload.value;
      }
      if v.minecraft == release.minecraft && v.modLoader.Some? &&
        exists l :: l in reply.payload.value && Eligible(l, true) && l.loader.version == v.modLoader.value
      {
        var l :| l in reply.payload.value && Eligible(l, true) && l.loader.version == v.modLoader.value;
        var k :| 0 <= k < |loaders| && loaders[k] == l;
        assert Probe(release, probe)[k] == v;
      }
    }
  }

  /**
    A version is available exactly when some release's probe lists an
    eligible loader with that version; this does not depend on the order
    the probes finish in.
  */
  lemma AvailableExactly(releases: seq<GameVersion>, probe: string -> Response<seq<FabricLoader>>, v: GameVersion)
    ensures v in FlatMap(releases, ProbeWith(probe)) <==>
      v.modLoader.Some? &&
      exists r :: r in releases && r.minecraft == v.minecraft && Usable(probe(r.minecraft)) &&
        exists l :: l in probe(r.minecraft).payload.value && Eligible(l, true) && l.loader.version == v.modLoader.value
  {
    FlatMapMembers(releases, ProbeWith(probe), v);
    forall r | r in releases {
      ProbeMembers(r, probe, v);
    }
  }
}
