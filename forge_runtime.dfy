/**
  The Forge provider (`ForgeRuntime`, `ForgeRuntimeProvider`): the versions
  of Forge for a Minecraft release are scraped from that release's download
  page, and the chosen installer is run at build time.

  Whether a link is a URL Foundation accepts is the parameter `isUrl`; the
  answers of the vanilla provider are parameters too.
*/
module ForgeRuntime {
  import opened Wrappers
  import opened Exceptions
  import opened Network
  import opened Seqs
  import opened Minecraft
  import opened JavaVersion
  import opened ForgePage
  import Defaults
  import RuntimesProtocol

  datatype ForgeVersion = ForgeVersion(version: string, isLatest: bool, url: string)

  function VersionsHtmlUrl(minecraft: string): string {
    "https://files.minecraftforge.net/net/minecraftforge/forge/index_" + minecraft + ".html"
  }

  /** The five build steps that download the installer and install the server into the home directory. */
  function InstallCommands(url: string): seq<string> {
    [ "WORKDIR /tmp",
      "ADD \"" + url + "\" ./forge_installer.jar",
      "RUN java -jar forge_installer.jar --installServer " + Defaults.HomeDirectory,
      "WORKDIR " + Defaults.HomeDirectory,
      "RUN rm -rf /tmp" ]
  }

  const StartCommand: string :=
    "if [[ -e \"run.sh\" ]]; then\n    bash run.sh --nogui\nelse\n    java $(cat user_jvm_args.txt) -jar forge*.jar --nogui\nfi"

  /** `ForgeRuntime`. */
  function MakeRuntime(version: GameVersion, url: string, name: string, javaVersion: Option<JavaVersion>): RuntimesProtocol.Runtime {
    RuntimesProtocol.Runtime(
      gameType := Forge,
      version := version,
      url := url,
      name := name,
      executableName := "forge_installer.jar",
      installCommands := InstallCommands(url),
      startCommand := StartCommand,
      mappedVolumes := Defaults.MappedVolumes + ["mods"],
      javaVersion := javaVersion)
  }

  // ---------------------------------------------------------------------------
  // Reading the page

  /**
    What one row contributes: nothing when its version cell, its text, its
    link list, an installer link or a valid URL is missing. A row is marked
    latest whenever selecting its `promo-latest` icons does not throw.
  */
  function RowVersion(row: Row, isUrl: string -> bool): (v: Option<ForgeVersion>)
    ensures v.Some? ==> InstallerHref(v.value.url) && isUrl(v.value.url)
    ensures v.Some? ==> row.versionCell.Some? && row.versionCell.value.text == Some(v.value.version)
  {
    if row.versionCell.None? || row.versionCell.value.text.None? || row.links.None? then None
    else match InstallerLink(row.links.value)
      case None => None
      case Some(link) =>
        if isUrl(link) then Some(ForgeVersion(row.versionCell.value.text.value, row.versionCell.value.promoLatest.Some?, link))
        else None
  }

  /** The contributions of the rows, in row order. */
  function VersionsOf(rows: seq<Row>, isUrl: string -> bool): seq<ForgeVersion> {
    if rows == [] then []
    else
      var init := VersionsOf(rows[..|rows| - 1], isUrl);
      match RowVersion(rows[|rows| - 1], isUrl)
      case None => init
      case Some(v) => init + [v]
  }

  /**
    `ForgeVersion.versions(from:)`: scan the rows, skipping the ones that do
    not qualify. `page` is `None` when the document cannot be parsed or its
    rows cannot be selected.
  */
  method Versions(page: Option<seq<Row>>, isUrl: string -> bool) returns (versions: seq<ForgeVersion>)
    ensures page.None? ==> versions == []
    ensures page.Some? ==> versions == VersionsOf(page.value, isUrl)
  {
    versions := [];
    if page.None? {
      return;
    }
    var rows := page.value;
    for i := 0 to |rows|
      invariant versions == VersionsOf(rows[..i], isUrl)
    {
      assert rows[..i + 1][..i] == rows[..i];
      var row := rows[i];
      if row.versionCell.None? || row.versionCell.value.text.None? {
        continue;
      }
      var version := row.versionCell.value.text.value;
      var isLatest := row.versionCell.value.promoLatest.Some?;
      if row.links.None? {
        continue;
      }
      var link := InstallerLink(row.links.value);
      if link.None? || !isUrl(link.value) {
        continue;
      }
      versions := versions + [ForgeVersion(version, isLatest, link.value)];
    }
    assert rows[..|rows|] == rows;
  }

  function PageVersions(page: Option<seq<Row>>, isUrl: string -> bool): seq<ForgeVersion> {
    if page.None? then [] else VersionsOf(page.value, isUrl)
  }

  // ---------------------------------------------------------------------------
  // Selection rules

  /**
    `installers(for:)`: the page must arrive with status 200 and decode as
    UTF-8; a page that does not parse gives no installers rather than an
    error.
  */
  function Installers(reply: Response<Option<seq<Row>>>, isUrl: string -> bool): (installers: Outcome<seq<ForgeVersion>>)
    ensures installers.Ok? <==> Usable(reply)
    ensures installers.Err? ==> installers == Err(Receive(reply).error)
    ensures installers.Ok? ==> installers.value == PageVersions(reply.payload.value, isUrl)
  {
    var page :- Receive(reply);
    Ok(PageVersions(page, isUrl))
  }

  /** `latestInstaller(for:)`: the first installer marked latest; none is a `serverDownload` error. */
  function LatestInstaller(reply: Response<Option<seq<Row>>>, isUrl: string -> bool): (installer: Outcome<ForgeVersion>)
    ensures Usable(reply) ==> (installer.Err? <==> forall v :: v in PageVersions(reply.payload.value, isUrl) ==> !v.isLatest)
    ensures Usable(reply) && installer.Err? ==> installer == Err(ServerDownload(NotFound))
    ensures !Usable(reply) ==> installer == Err(Receive(reply).error)
    ensures installer.Ok? ==> installer.value in PageVersions(reply.payload.value, isUrl) && installer.value.isLatest
    ensures installer.Ok? ==>
      var listed := PageVersions(reply.payload.value, isUrl);
      exists k :: 0 <= k < |listed| && listed[k] == installer.value && forall j :: 0 <= j < k ==> !listed[j].isLatest
  {
    var installers :- Installers(reply, isUrl);
    match First(installers, (v: ForgeVersion) => v.isLatest)
    case None => Err(ServerDownload(NotFound))
    case Some(v) => Ok(v)
  }

  /** A pinned request: the first installer whose version is exactly the requested one; none is an invalid game version. */
  function PinnedInstaller(reply: Response<Option<seq<Row>>>, isUrl: string -> bool, modLoader: string): (installer: Outcome<ForgeVersion>)
    ensures Usable(reply) ==> (installer.Err? <==> forall v :: v in PageVersions(reply.payload.value, isUrl) ==> v.version != modLoader)
    ensures Usable(reply) && installer.Err? ==> installer == Err(InvalidGameVersion)
    ensures !Usable(reply) ==> installer == Err(Receive(reply).error)
    ensures installer.Ok? ==> installer.value in PageVersions(reply.payload.value, isUrl) && installer.value.version == modLoader
    ensures installer.Ok? ==>
      var listed := PageVersions(reply.payload.value, isUrl);
      exists k :: 0 <= k < |listed| && listed[k] == installer.value && forall j :: 0 <= j < k ==> listed[j].version != modLoader
  {
    var installers :- Installers(reply, isUrl);
    match First(installers, (v: ForgeVersion) => v.version == modLoader)
    case None => Err(InvalidGameVersion)
    case Some(v) => Ok(v)
  }

  function ResolveInstaller(version: GameVersion, reply: Response<Option<seq<Row>>>, isUrl: string -> bool): Outcome<ForgeVersion> {
    if version.modLoader.Some? then PinnedInstaller(reply, isUrl, version.modLoader.value) else LatestInstaller(reply, isUrl)
  }

  /** `runtime(for:)`: the installer, then the vanilla Java version; the first failure is the result. */
  function Runtime(version: GameVersion, reply: Response<Option<seq<Row>>>, isUrl: string -> bool, javaVersion: Outcome<nat>)
    : (runtime: Outcome<RuntimesProtocol.Runtime>)
    ensures ResolveInstaller(version, reply, isUrl).Err? ==> runtime == Err(ResolveInstaller(version, reply, isUrl).error)
    ensures ResolveInstaller(version, reply, isUrl).Ok? && javaVersion.Err? ==> runtime == Err(javaVersion.error)
    ensures runtime.Ok? <==> ResolveInstaller(version, reply, isUrl).Ok? && javaVersion.Ok?
    ensures runtime.Ok? ==>
      var forge := ResolveInstaller(version, reply, isUrl).value;
      && runtime.value.url == forge.url
      && runtime.value.name == RuntimeName(version.minecraft, Forge, forge.version)
      && |runtime.value.installCommands| == 5
      && runtime.value.installCommands[1] == "ADD \"" + forge.url + "\" ./forge_installer.jar"
      && runtime.value.javaVersion == FromRawValue(javaVersion.value)
  {
    var forge :- ResolveInstaller(version, reply, isUrl);
    var java :- javaVersion;
    Ok(MakeRuntime(version, forge.url, RuntimeName(version.minecraft, Forge, forge.version), FromRawValue(java)))
  }

  // ---------------------------------------------------------------------------
  // Availability

  /** What the probe of one release contributes: one version per installer on its page. */
  function Probe(release: GameVersion, probe: string -> Response<Option<seq<Row>>>, isUrl: string -> bool): seq<GameVersion> {
    match Installers(probe(release.minecraft), isUrl)
    case Err(_) => []
    case Ok(installers) => seq(|installers|, k requires 0 <= k < |installers| => GameVersion(release.minecraft, Some(installers[k].version)))
  }

  function ProbeWith(probe: string -> Response<Option<seq<Row>>>, isUrl: string -> bool): GameVersion -> seq<GameVersion> {
    release => Probe(release, probe, isUrl)
  }

  /** `availableVersions`: the releases probed one by one (the source probes them concurrently). */
  method AvailableVersions(vanilla: Outcome<seq<GameVersion>>, probe: string -> Response<Option<seq<Row>>>, isUrl: string -> bool)
    returns (versions: Outcome<seq<GameVersion>>)
    ensures vanilla.Err? ==> versions == Err(vanilla.error)
    ensures vanilla.Ok? ==> versions == Ok(FlatMap(vanilla.value, ProbeWith(probe, isUrl)))
  {
    if vanilla.Err? {
      return Err(vanilla.error);
    }
    var releases := vanilla.value;
    var all: seq<GameVersion> := [];
    for i := 0 to |releases|
      invariant all == FlatMap(releases[..i], ProbeWith(probe, isUrl))
    {
      assert releases[..i + 1] == releases[..i] + [releases[i]];
      FlatMapSnoc(releases[..i], releases[i], ProbeWith(probe, isUrl));
      all := all + Probe(releases[i], probe, isUrl);
    }
    assert releases[..|releases|] == releases;
    versions := Ok(all);
  }

  // ---------------------------------------------------------------------------
  // Facts

  /** Adding a row appends its contribution, so the output follows row order. */
  lemma {:induction false} VersionsOfAppend(a: seq<Row>, b: seq<Row>, isUrl: string -> bool)
    ensures VersionsOf(a + b, isUrl) == VersionsOf(a, isUrl) + VersionsOf(b, isUrl)
  {
    if b == [] {
      assert a + b == a;
    } else {
      var init, last := b[..|b| - 1], b[|b| - 1];
      assert (a + b)[..|a + b| - 1] == a + init;
      assert (a + b)[|a + b| - 1] == last;
      VersionsOfAppend(a, init, isUrl);
    }
  }

  /** A version is listed exactly when some row contributes it. */
  lemma {:induction false} VersionsOfMembers(rows: seq<Row>, isUrl: string -> bool, v: ForgeVersion)
    ensures v in VersionsOf(rows, isUrl) <==> exists row :: row in rows && RowVersion(row, isUrl) == Some(v)
  {
    if rows != [] {
      var init, last := rows[..|rows| - 1], rows[|rows| - 1];
      assert rows == init + [last];
      VersionsOfMembers(init, isUrl, v);
      assert forall row :: row in rows <==> row in init || row == last;
    }
  }

  /**
    A row with no `promo-latest` icon at all is still marked latest: an
    empty selection is not a failed one. So the first listed installer is
    the latest one whenever no selector throws.
  */
  lemma EmptyPromotionStillLatest(row: Row, isUrl: string -> bool)
    requires RowVersion(row, isUrl).Some? && row.versionCell.value.promoLatest == Some(0)
    ensures RowVersion(row, isUrl).value.isLatest
  {
  }

  lemma LatestIsFirstListed(reply: Response<Option<seq<Row>>>, isUrl: string -> bool)
    requires Usable(reply) && PageVersions(reply.payload.value, isUrl) != []
    requires forall v :: v in PageVersions(reply.payload.value, isUrl) ==> v.isLatest
    ensures LatestInstaller(reply, isUrl) == Ok(PageVersions(reply.payload.value, isUrl)[0])
  {
  }

  /** A page that does not parse gives no installers, so the latest lookup fails with `serverDownload`. */
  lemma UnparsablePageNotFound(reply: Response<Option<seq<Row>>>, isUrl: string -> bool)
    requires reply.Http? && reply.status == 200 && reply.payload == Some(None)
    ensures LatestInstaller(reply, isUrl) == Err(ServerDownload(NotFound))
  {
  }

  /** A version is available exactly when its release's page is usable and lists an installer with that version. */
  lemma AvailableExactly(releases: seq<GameVersion>, probe: string -> Response<Option<seq<Row>>>, isUrl: string -> bool, v: GameVersion)
    ensures v in FlatMap(releases, ProbeWith(probe, isUrl)) <==>
      v.modLoader.Some? &&
      exists r :: r in releases && r.minecraft == v.minecraft && Usable(probe(r.minecraft)) &&
        exists f :: f in PageVersions(probe(r.minecraft).payload.value, isUrl) && f.version == v.modLoader.value
  {
    FlatMapMembers(releases, ProbeWith(probe, isUrl), v);
    forall r | r in releases
      ensures v in Probe(r, probe, isUrl) <==>
        Usable(probe(r.minecraft)) && r.minecraft == v.minecraft && v.modLoader.Some? &&
        exists f :: f in PageVersions(probe(r.minecraft).payload.value, isUrl) && f.version == v.modLoader.value
    {
      if Usable(probe(r.minecraft)) {
        var fs := PageVersions(probe(r.minecraft).payload.value, isUrl);
        if v in Probe(r, probe, isUrl) {
          var k :| 0 <= k < |fs| && Probe(r, probe, isUrl)[k] == v;
          assert fs[k] in fs;
        }
        if r.minecraft == v.minecraft && v.modLoader.Some? && exists f :: f in fs && f.version == v.modLoader.value {
          var f :| f in fs && f.version == v.modLoader.value;
          var k :| 0 <= k < |fs| && fs[k] == f;
          assert Probe(r, probe, isUrl)[k] == v;
        }
      }
    }
  }
}
