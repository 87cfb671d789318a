/**
  The vanilla server (`VanillaRuntime`, `VanillaRuntimeProvider`): versions
  come from Mojang's version manifest, which the provider fetches once and
  keeps; each version's own information document names the server jar and
  the Java version it wants.
*/
module VanillaRuntime {
  import opened Wrappers
  import opened Exceptions
  import opened Network
  import opened Minecraft
  import opened JavaVersion
  import Defaults
  import RuntimesProtocol

  // ---------------------------------------------------------------------------
  // The version manifest

  datatype ReleaseType = Release | Snapshot | OldBeta | OldAlpha

  datatype ManifestVersion = ManifestVersion(id: string, releaseType: ReleaseType, url: string)

  datatype LatestIds = LatestIds(release: string, snapshot: string)

  datatype VersionManifest = VersionManifest(latest: LatestIds, versions: seq<ManifestVersion>)

  /** The release entries of the manifest, in manifest order, each without a mod loader. */
  function ReleaseVersions(entries: seq<ManifestVersion>): (versions: seq<GameVersion>)
    ensures |versions| <= |entries|
    ensures forall v :: v in versions ==> v.modLoader.None?
  {
    if entries == [] then []
    else if entries[0].releaseType == Release then [GameVersion(entries[0].id, None)] + ReleaseVersions(entries[1..])
    else ReleaseVersions(entries[1..])
  }

  /** The first manifest entry with the given id, whatever its release type. */
  function FirstWithId(entries: seq<ManifestVersion>, id: string): (found: Option<ManifestVersion>)
    ensures found.Some? ==> found.value in entries && found.value.id == id
    ensures found.None? <==> forall e :: e in entries ==> e.id != id
  {
    if entries == [] then None
    else if entries[0].id == id then Some(entries[0])
    else FirstWithId(entries[1..], id)
  }

  // ---------------------------------------------------------------------------
  // The per-version information document

  datatype DownloadType = Client | ClientMappings | Server | ServerMappings {
    function RawValue(): string {
      match this
      case Client => "client"
      case ClientMappings => "client_mappings"
      case Server => "server"
      case ServerMappings => "server_mappings"
    }
  }

  const DownloadTypes: set<DownloadType> := {Client, ClientMappings, Server, ServerMappings}

  function DownloadTypeFromRawValue(key: string): (t: Option<DownloadType>)
    ensures forall d: DownloadType :: t == Some(d) <==> d.RawValue() == key
  {
    if key == "client" then Some(Client)
    else if key == "client_mappings" then Some(ClientMappings)
    else if key == "server" then Some(Server)
    else if key == "server_mappings" then Some(ServerMappings)
    else
      assert forall d: DownloadType :: d.RawValue() != key;
      None
  }

  datatype Download = Download(sha1: string, size: nat, url: string)

  /**
    The information document as the JSON decoder sees it: `id` and
    `downloads` are required, and `javaVersion.majorVersion` is `None` when
    it is missing or malformed.
  */
  datatype RawVersionInfo = RawVersionInfo(
    id: Option<string>,
    javaMajorVersion: Option<nat>,
    downloads: Option<map<string, Download>>)

  datatype VersionInfo = VersionInfo(id: string, javaVersion: nat, downloads: map<DownloadType, Download>)

  /** The downloads under the known keys among `keys`, by type. */
  function KnownDownloads(entries: map<string, Download>, keys: set<string>): map<DownloadType, Download>
    requires keys <= entries.Keys
  {
    map t | t in DownloadTypes && t.RawValue() in keys :: entries[t.RawValue()]
  }

  /** What `VanillaVersionInfo.init(from:)` produces, if it does not throw. */
  function VersionInfoOf(raw: RawVersionInfo): Option<VersionInfo> {
    if raw.id.None? || raw.downloads.None? then None
    else
      var java := if raw.javaMajorVersion.Some? then raw.javaMajorVersion.value else 8;
      Some(VersionInfo(raw.id.value, java, KnownDownloads(raw.downloads.value, raw.downloads.value.Keys)))
  }

  /** `VanillaVersionInfo.init(from:)`: copies the entries with known keys one by one. */
  method DecodeVersionInfo(raw: RawVersionInfo) returns (info: Option<VersionInfo>)
    ensures info == VersionInfoOf(raw)
  {
    if raw.id.None? || raw.downloads.None? {
      return None;
    }
    var java := if raw.javaMajorVersion.Some? then raw.javaMajorVersion.value else 8;
    var entries := raw.downloads.value;
    var remaining := entries.Keys;
    var downloads: map<DownloadType, Download> := map[];
    while remaining != {}
      invariant remaining <= entries.Keys
      invariant downloads == KnownDownloads(entries, entries.Keys - remaining)
      decreases |remaining|
    {
      var key :| key in remaining;
      var done := entries.Keys - remaining;
      var t := DownloadTypeFromRawValue(key);
      if t.Some? {
        downloads := downloads[t.value := entries[key]];
      }
      remaining := remaining - {key};
      assert entries.Keys - remaining == done + {key};
    }
    assert entries.Keys - remaining == entries.Keys;
    return Some(VersionInfo(raw.id.value, java, downloads));
  }

  // ---------------------------------------------------------------------------
  // The runtime

  /** `VanillaRuntime`: the server jar is downloaded straight into the home directory. */
  function MakeRuntime(version: GameVersion, url: string, name: string, javaVersion: Option<JavaVersion>): RuntimesProtocol.Runtime {
    RuntimesProtocol.Runtime(
      gameType := Vanilla,
      version := version,
      url := url,
      name := name,
      executableName := "server.jar",
      installCommands := ["ADD \"" + url + "\" " + Defaults.HomeDirectory + "/server.jar"],
      startCommand := "java $(cat user_jvm_args.txt) -jar server.jar $@",
      mappedVolumes := Defaults.MappedVolumes,
      javaVersion := javaVersion)
  }

  /**
    `VanillaRuntimeProvider`. The replies the network would give are
    parameters: `manifestReply` for the version manifest and `infoReply(url)`
    for the information document at `url`.
  */
  class VanillaRuntimeProvider {
    var versionsManifest: Option<VersionManifest>

    constructor ()
      ensures versionsManifest == None
    {
      versionsManifest := None;
    }

    /** `cacheAvailableVersions`: fetch and decode the manifest, keeping it on success only. */
    method CacheAvailableVersions(manifestReply: Response<VersionManifest>) returns (outcome: Outcome<VersionManifest>)
      modifies this
      ensures outcome == Receive(manifestReply)
      ensures outcome.Ok? ==> versionsManifest == Some(outcome.value)
      ensures outcome.Err? ==> versionsManifest == old(versionsManifest)
    {
      outcome := Receive(manifestReply);
      if outcome.Ok? {
        versionsManifest := Some(outcome.value);
      }
    }

    /** The manifest, fetched only if none is kept yet. */
    method Manifest(manifestReply: Response<VersionManifest>) returns (outcome: Outcome<VersionManifest>)
      modifies this
      ensures old(versionsManifest).Some? ==> outcome == Ok(old(versionsManifest).value) && versionsManifest == old(versionsManifest)
      ensures old(versionsManifest).None? ==> outcome == Receive(manifestReply)
      ensures outcome.Ok? ==> versionsManifest == Some(outcome.value)
      ensures outcome.Err? ==> versionsManifest == None
    {
      if versionsManifest.None? {
        outcome := CacheAvailableVersions(manifestReply);
      } else {
        outcome := Ok(versionsManifest.value);
      }
    }

    /** `availableVersions`: the release entries of the manifest, in order. */
    method AvailableVersions(manifestReply: Response<VersionManifest>) returns (versions: Outcome<seq<GameVersion>>)
      modifies this
      ensures old(versionsManifest).Some? ==>
        versions == Ok(ReleaseVersions(old(versionsManifest).value.versions)) && versionsManifest == old(versionsManifest)
      ensures old(versionsManifest).None? ==>
        match Receive(manifestReply)
        case Ok(m) => versions == Ok(ReleaseVersions(m.versions)) && versionsManifest == Some(m)
        case Err(e) => versions == Err(e) && versionsManifest == None
    {
      var manifest := Manifest(manifestReply);
      if manifest.Err? {
        return Err(manifest.error);
      }
      versions := Ok(ReleaseVersions(manifest.value.versions));
    }

    /**
      `info(for:)`: the information document of the first manifest entry
      whose id is the requested Minecraft version.
    */
    method Info(version: GameVersion, manifestReply: Response<VersionManifest>, infoReply: string -> Response<RawVersionInfo>)
      returns (info: Outcome<VersionInfo>)
      modifies this
      ensures old(versionsManifest).Some? ==> versionsManifest == old(versionsManifest)
      ensures old(versionsManifest).None? && Receive(manifestReply).Err? ==>
        info == Err(Receive(manifestReply).error) && versionsManifest == None
      ensures old(versionsManifest).None? && Receive(manifestReply).Ok? ==>
        versionsManifest == Some(Receive(manifestReply).value)
      ensures versionsManifest.Some? ==> info == InfoFrom(versionsManifest.value, version, infoReply)
    {
      var manifest := Manifest(manifestReply);
      if manifest.Err? {
        return Err(manifest.error);
      }
      var entry := FirstWithId(manifest.value.versions, version.minecraft);
      if entry.None? {
        return Err(InvalidGameVersion);
      }
      var document := Receive(infoReply(entry.value.url));
      if document.Err? {
        return Err(document.error);
      }
      var decoded := DecodeVersionInfo(document.value);
      if decoded.None? {
        return Err(ServerDownload(InvalidData));
      }
      info := Ok(decoded.value);
    }

    /** `runtime(for:)`: the server download of the version's information document. */
    method Runtime(version: GameVersion, manifestReply: Response<VersionManifest>, infoReply: string -> Response<RawVersionInfo>)
      returns (runtime: Outcome<RuntimesProtocol.Runtime>)
      modifies this
      ensures old(versionsManifest).Some? ==> versionsManifest == old(versionsManifest)
      ensures old(versionsManifest).None? && Receive(manifestReply).Err? ==>
        runtime == Err(Receive(manifestReply).error) && versionsManifest == None
      ensures old(versionsManifest).None? && Receive(manifestReply).Ok? ==>
        versionsManifest == Some(Receive(manifestReply).value)
      ensures versionsManifest.Some? ==> runtime == RuntimeFrom(versionsManifest.value, version, infoReply)
    {
      var info := Info(version, manifestReply, infoReply);
      if info.Err? {
        return Err(info.error);
      }
      if Server !in info.value.downloads {
        return Err(ServerDownload(NotFound));
      }
      runtime := Ok(MakeRuntime(version, info.value.downloads[Server].url, version.minecraft, FromRawValue(info.value.javaVersion)));
    }
  }

  /** What `info(for:)` yields once the manifest is known. */
  function InfoFrom(manifest: VersionManifest, version: GameVersion, infoReply: string -> Response<RawVersionInfo>): Outcome<VersionInfo> {
    match FirstWithId(manifest.versions, version.minecraft)
    case None => Err(InvalidGameVersion)
    case Some(entry) =>
      var document :- Receive(infoReply(entry.url));
      match VersionInfoOf(document)
      case None => Err(ServerDownload(InvalidData))
      case Some(info) => Ok(info)
  }

  /** What `runtime(for:)` yields once the manifest is known. */
  function RuntimeFrom(manifest: VersionManifest, version: GameVersion, infoReply: string -> Response<RawVersionInfo>)
    : (runtime: Outcome<RuntimesProtocol.Runtime>)
    ensures runtime.Ok? ==> runtime.value.name == version.minecraft && runtime.value.version == version
    ensures runtime.Ok? ==> runtime.value.mappedVolumes == Defaults.MappedVolumes && |runtime.value.installCommands| == 1
  {
    var info :- InfoFrom(manifest, version, infoReply);
    if Server !in info.downloads then Err(ServerDownload(NotFound))
    else Ok(MakeRuntime(version, info.downloads[Server].url, version.minecraft, FromRawValue(info.javaVersion)))
  }

  // ---------------------------------------------------------------------------
  // Facts

  /** The release filter distributes over concatenation, so it keeps manifest order. */
  lemma {:induction false} ReleaseVersionsAppend(a: seq<ManifestVersion>, b: seq<ManifestVersion>)
    ensures ReleaseVersions(a + b) == ReleaseVersions(a) + ReleaseVersions(b)
  {
    if a == [] {
      assert a + b == b;
    } else {
      assert (a + b)[0] == a[0];
      assert (a + b)[1..] == a[1..] + b;
      ReleaseVersionsAppend(a[1..], b);
    }
  }

  /** A version is listed exactly when a release entry carries its id. */
  lemma {:induction false} ReleaseVersionsMembers(entries: seq<ManifestVersion>, v: GameVersion)
    ensures v in ReleaseVersions(entries) <==>
      v.modLoader.None? && exists e :: e in entries && e.releaseType == Release && e.id == v.minecraft
  {
    if entries != [] {
      ReleaseVersionsMembers(entries[1..], v);
      assert forall e :: e in entries <==> e == entries[0] || e in entries[1..];
    }
  }

  /** A missing or malformed `javaVersion` is read as Java 8. */
  lemma JavaVersionDefaultsTo8(raw: RawVersionInfo)
    requires raw.id.Some? && raw.downloads.Some?
    ensures VersionInfoOf(raw).Some?
    ensures VersionInfoOf(raw).value.javaVersion == if raw.javaMajorVersion.Some? then raw.javaMajorVersion.value else 8
    ensures raw.javaMajorVersion.None? ==> FromRawValue(VersionInfoOf(raw).value.javaVersion) == Some(Java8)
  {
  }

  /** A download under a key the decoder does not know changes nothing. */
  lemma UnknownDownloadIgnored(raw: RawVersionInfo, key: string, d: Download)
    requires raw.downloads.Some? && key !in raw.downloads.value
    requires DownloadTypeFromRawValue(key).None?
    ensures VersionInfoOf(raw.(downloads := Some(raw.downloads.value[key := d]))) == VersionInfoOf(raw)
  {
    var entries := raw.downloads.value;
    var more := entries[key := d];
    assert KnownDownloads(more, more.Keys) == KnownDownloads(entries, entries.Keys);
  }

  /** The decoded server download is the one under the `server` key. */
  lemma ServerDownloadKept(raw: RawVersionInfo)
    requires VersionInfoOf(raw).Some?
    ensures Server in VersionInfoOf(raw).value.downloads <==> "server" in raw.downloads.value
    ensures "server" in raw.downloads.value ==> VersionInfoOf(raw).value.downloads[Server] == raw.downloads.value["server"]
  {
  }

  /**
    The information document is looked up by id among all manifest entries,
    snapshots included: the version is rejected as invalid exactly when no
    entry carries its id.
  */
  lemma InvalidExactlyWhenUnknown(manifest: VersionManifest, version: GameVersion, infoReply: string -> Response<RawVersionInfo>)
    ensures InfoFrom(manifest, version, infoReply) == Err(InvalidGameVersion)
        <==> forall e :: e in manifest.versions ==> e.id != version.minecraft
  {
  }

  /** The entry consulted is the first one with the requested id. */
  lemma {:induction false} FirstWithIdAt(entries: seq<ManifestVersion>, id: string, i: nat)
    requires i < |entries| && entries[i].id == id
    requires forall j :: 0 <= j < i ==> entries[j].id != id
    ensures FirstWithId(entries, id) == Some(entries[i])
  {
    if i > 0 {
      FirstWithIdAt(entries[1..], id, i - 1);
    }
  }

  /** A fresh provider that is asked twice fetches the manifest once, the second reply is never used. */
  method ManifestFetchedOnce(reply1: Response<VersionManifest>, reply2: Response<VersionManifest>)
    returns (first: Outcome<seq<GameVersion>>, second: Outcome<seq<GameVersion>>)
    requires Usable(reply1)
    ensures first == second == Ok(ReleaseVersions(reply1.payload.value.versions))
  {
    var provider := new VanillaRuntimeProvider();
    first := provider.AvailableVersions(reply1);
    second := provider.AvailableVersions(reply2);
  }
}
