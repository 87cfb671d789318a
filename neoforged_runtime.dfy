/**
  The NeoForged provider (`NeoForgedRuntime`, `NeoForgedRuntimeProvider`):
  NeoForged versions are the directories of one Maven listing, and a
  NeoForged version belongs to Minecraft `1.x.y` when it starts with `x.y`.

  The listing is the parsed page: the texts of its `li.directory` anchors,
  `None` for an anchor whose text cannot be read, or no list at all when the
  page does not parse.
*/
module NeoForgedRuntime {
  import opened Wrappers
  import opened Exceptions
  import opened Network
  import opened Text
  import opened Seqs
  import opened Minecraft
  import opened JavaVersion
  import Defaults
  import RuntimesProtocol

  datatype NeoForgedVersion = NeoForgedVersion(version: string)

  const VersionListUrl: string := "https://maven.neoforged.net/releases/net/neoforged/neoforge/"

  /** `installerUrl(base:)`: the version's directory, then its installer jar. */
  function InstallerUrl(v: NeoForgedVersion): string {
    VersionListUrl + v.version + "/neoforge-" + v.version + "-installer.jar"
  }

  /** `NeoForgedRuntime`. */
  function MakeRuntime(version: GameVersion, url: string, name: string, javaVersion: Option<JavaVersion>): RuntimesProtocol.Runtime {
    RuntimesProtocol.Runtime(
      gameType := NeoForged,
      version := version,
      url := url,
      name := name,
      executableName := "neoforge_installer.jar",
      installCommands := [
        "WORKDIR /tmp",
        "ADD \"" + url + "\" ./neoforge_installer.jar",
        "RUN java -jar neoforge_installer.jar --install-server " + Defaults.HomeDirectory,
        "WORKDIR " + Defaults.HomeDirectory,
        "RUN rm -rf /tmp"],
      startCommand := "bash run.sh --nogui $@",
      mappedVolumes := Defaults.MappedVolumes + ["mods"],
      javaVersion := javaVersion)
  }

  /** `versions(from:)`: every readable anchor text with its `/` characters removed, in listing order. */
  function Versions(listing: Option<seq<Option<string>>>): (versions: seq<NeoForgedVersion>)
    ensures forall v :: v in versions ==> '/' !in v.version
    ensures listing.None? ==> versions == []
  {
    if listing.None? then [] else VersionsOf(listing.value)
  }

  function VersionsOf(anchors: seq<Option<string>>): (versions: seq<NeoForgedVersion>)
    ensures forall v :: v in versions ==> '/' !in v.version
    ensures |versions| <= |anchors|
  {
    if anchors == [] then []
    else
      var rest := VersionsOf(anchors[1..]);
      match anchors[0]
      case None => rest
      case Some(text) => [NeoForgedVersion(RemoveChar(text, '/'))] + rest
  }

  /**
    The prefix a NeoForged version for `minecraft` starts with: the numeric
    components of the Minecraft version without the first, joined by `.`.
  */
  function VersionPrefix(minecraft: GameVersion): string {
    var components := MinecraftVersionComponents(minecraft);
    var rest := if components == [] then [] else components[1..];
    Join(Printed(rest), ".")
  }

  /** Each number printed in decimal. */
  function Printed(ns: seq<nat>): (texts: seq<string>)
    ensures |texts| == |ns|
    ensures forall k :: 0 <= k < |ns| ==> texts[k] == NatToString(ns[k])
  {
    if ns == [] then [] else [NatToString(ns[0])] + Printed(ns[1..])
  }

  predicate Matches(v: NeoForgedVersion, prefix: string) {
    HasPrefix(v.version, prefix)
  }

  /** `latestVersion(from:for:)`: the last listed version that starts with the prefix. */
  function LatestVersion(listing: Option<seq<Option<string>>>, minecraft: GameVersion): (latest: Option<NeoForgedVersion>)
    ensures latest.Some? ==> latest.value in Versions(listing) && HasPrefix(latest.value.version, VersionPrefix(minecraft))
    ensures latest.None? <==> forall v :: v in Versions(listing) ==> !HasPrefix(v.version, VersionPrefix(minecraft))
    ensures latest.Some? ==>
      var listed := Versions(listing);
      exists k :: 0 <= k < |listed| && listed[k] == latest.value &&
        forall j :: k < j < |listed| ==> !HasPrefix(listed[j].version, VersionPrefix(minecraft))
  {
    var prefix := VersionPrefix(minecraft);
    Last(Versions(listing), (v: NeoForgedVersion) => Matches(v, prefix))
  }

  /**
    `installer(for:)`: the listing is decoded as UTF-8 before its status is
    checked; no matching version is a `serverDownload` error.
  */
  function Installer(reply: Response<Option<seq<Option<string>>>>, minecraft: GameVersion): (installer: Outcome<NeoForgedVersion>)
    ensures installer.Ok? <==> Usable(reply) && LatestVersion(reply.payload.value, minecraft).Some?
    ensures installer.Ok? ==> installer.value == LatestVersion(reply.payload.value, minecraft).value
    ensures !Usable(reply) ==> installer == Err(ReceiveDecodedFirst(reply).error)
    ensures Usable(reply) && installer.Err? ==> installer == Err(ServerDownload(NotFound))
  {
    var listing :- ReceiveDecodedFirst(reply);
    match LatestVersion(listing, minecraft)
    case None => Err(ServerDownload(NotFound))
    case Some(v) => Ok(v)
  }

  /** `runtime(for:)`: the installer, then the vanilla Java version. */
  function Runtime(version: GameVersion, reply: Response<Option<seq<Option<string>>>>, javaVersion: Outcome<nat>)
    : (runtime: Outcome<RuntimesProtocol.Runtime>)
    ensures Installer(reply, version).Err? ==> runtime == Err(Installer(reply, version).error)
    ensures Installer(reply, version).Ok? && javaVersion.Err? ==> runtime == Err(javaVersion.error)
    ensures runtime.Ok? <==> Installer(reply, version).Ok? && javaVersion.Ok?
    ensures runtime.Ok? ==>
      var neoForged := Installer(reply, version).value;
      && runtime.value.url == InstallerUrl(neoForged)
      && runtime.value.name == RuntimeName(version.minecraft, NeoForged, neoForged.version)
      && runtime.value.javaVersion == FromRawValue(javaVersion.value)
  {
    var neoForged :- Installer(reply, version);
    var java :- javaVersion;
    Ok(MakeRuntime(version, InstallerUrl(neoForged), RuntimeName(version.minecraft, NeoForged, neoForged.version), FromRawValue(java)))
  }

  predicate Supported(release: GameVersion, replyFor: GameVersion -> Response<Option<seq<Option<string>>>>) {
    Installer(replyFor(release), release).Ok?
  }

  function SupportedBy(replyFor: GameVersion -> Response<Option<seq<Option<string>>>>): GameVersion -> bool {
    release => Supported(release, replyFor)
  }

  /**
    `availableVersions`: the releases for which the listing has a matching
    version, probed one by one. Every probe fetches the listing anew, so
    `replyFor(release)` is the reply that probe receives.
  */
  method AvailableVersions(vanilla: Outcome<seq<GameVersion>>, replyFor: GameVersion -> Response<Option<seq<Option<string>>>>)
    returns (versions: Outcome<seq<GameVersion>>)
    ensures vanilla.Err? ==> versions == Err(vanilla.error)
    ensures vanilla.Ok? ==> versions == Ok(Filter(vanilla.value, SupportedBy(replyFor)))
  {
    if vanilla.Err? {
      return Err(vanilla.error);
    }
    var releases := vanilla.value;
    var kept: seq<GameVersion> := [];
    for i := 0 to |releases|
      invariant kept == Filter(releases[..i], SupportedBy(replyFor))
    {
      assert releases[..i + 1] == releases[..i] + [releases[i]];
      FilterSnoc(releases[..i], releases[i], SupportedBy(replyFor));
      if Supported(releases[i], replyFor) {
        kept := kept + [releases[i]];
      }
    }
    assert releases[..|releases|] == releases;
    versions := Ok(kept);
  }

  // ---------------------------------------------------------------------------
  // Facts

  /** Minecraft `a.b.x` looks for NeoForged versions starting with `b.x`. */
  lemma PrefixDropsMajor(a: nat, b: nat, x: nat, loader: Option<string>)
    requires a <= UIntMax && b <= UIntMax && x <= UIntMax
    ensures VersionPrefix(GameVersion(Dotted(a, b) + "." + NatToString(x), loader)) == Dotted(b, x)
  {
    var v := GameVersion(Dotted(a, b) + "." + NatToString(x), loader);
    ComponentsOfPatch(a, b, x, loader);
    assert [a, b, x][1..] == [b, x];
    var printed := Printed([b, x]);
    assert printed == [NatToString(b), NatToString(x)];
    assert printed[1..] == [NatToString(x)];
    assert Join(printed, ".") == NatToString(b) + "." + Join([NatToString(x)], ".");
  }

  lemma ComponentsOfPatch(a: nat, b: nat, x: nat, loader: Option<string>)
    requires a <= UIntMax && b <= UIntMax && x <= UIntMax
    ensures MinecraftVersionComponents(GameVersion(Dotted(a, b) + "." + NatToString(x), loader)) == [a, b, x]
  {
    var s := Dotted(a, b) + "." + NatToString(x);
    DottedIsNotWord(a, b, "latest");
    assert s[0] == Dotted(a, b)[0];
    assert s != "latest";
    SplitDottedPatch(a, b, x);
    CompactMapPrinted3(a, b, x);
  }

  /** For the `latest` sentinel the prefix is empty, so the last listed version is taken. */
  lemma LatestTakesLastListed(listing: seq<Option<string>>)
    requires VersionsOf(listing) != []
    ensures LatestVersion(Some(listing), Minecraft.Latest) == Some(VersionsOf(listing)[|VersionsOf(listing)| - 1])
  {
    var listed := VersionsOf(listing);
    assert VersionPrefix(Minecraft.Latest) == "";
    assert Matches(listed[|listed| - 1], "");
  }

  /** Selection follows listing order: a matching version listed later replaces an earlier match. */
  lemma LaterListingWins(anchors: seq<Option<string>>, text: string, minecraft: GameVersion)
    requires HasPrefix(RemoveChar(text, '/'), VersionPrefix(minecraft))
    ensures LatestVersion(Some(anchors + [Some(text)]), minecraft) == Some(NeoForgedVersion(RemoveChar(text, '/')))
  {
    VersionsOfAppend(anchors, [Some(text)]);
    var listed := VersionsOf(anchors + [Some(text)]);
    assert listed[|listed| - 1] == NeoForgedVersion(RemoveChar(text, '/'));
  }

  lemma {:induction false} VersionsOfAppend(a: seq<Option<string>>, b: seq<Option<string>>)
    ensures VersionsOf(a + b) == VersionsOf(a) + VersionsOf(b)
  {
    if a == [] {
      assert a + b == b;
    } else {
      assert (a + b)[1..] == a[1..] + b;
      VersionsOfAppend(a[1..], b);
    }
  }

  /** A page that does not decode as UTF-8 is invalid data, whatever its status. */
  lemma UndecodableIsInvalidData(reply: Response<Option<seq<Option<string>>>>, minecraft: GameVersion)
    requires reply.Http? && reply.payload.None?
    ensures Installer(reply, minecraft) == Err(ServerDownload(InvalidData))
  {
  }
}
