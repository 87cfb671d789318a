/**
  The older Forge provider. It keeps a single candidate while it walks the
  `tbody` blocks of the download page, and a later qualifying block replaces
  an earlier one. A version is available when its page yields a candidate.
*/
module ForgeRuntimeProvider {
  import opened Wrappers
  import opened Exceptions
  import opened Network
  import opened Seqs
  import opened Minecraft
  import opened JavaVersion
  import opened ForgePage
  import Defaults
  import RuntimesProtocol

  datatype ForgeVersion = ForgeVersion(version: string, url: string)

  const StartCommand: string :=
    "if [[ -e \"run.sh\" ]]; then\n    bash run.sh --nogui\nelse\n    java -jar forge*.jar --nogui\nfi"

  /** The older `ForgeRuntime`: the same five install steps, started without the JVM argument file. */
  function MakeRuntime(version: GameVersion, url: string, name: string, javaVersion: Option<JavaVersion>): RuntimesProtocol.Runtime {
    RuntimesProtocol.Runtime(
      gameType := Forge,
      version := version,
      url := url,
      name := name,
      executableName := "forge_installer.jar",
      installCommands := [
        "WORKDIR /tmp",
        "ADD \"" + url + "\" ./forge_installer.jar",
        "RUN java -jar forge_installer.jar --installServer " + Defaults.HomeDirectory,
        "WORKDIR " + Defaults.HomeDirectory,
        "RUN rm -rf /tmp"],
      startCommand := StartCommand,
      mappedVolumes := Defaults.MappedVolumes + ["mods"],
      javaVersion := javaVersion)
  }

  /**
    The candidate a block offers: it needs a version text, a latest or
    recommended flag (a selector that does not throw), a link list, an
    installer link and a valid URL.
  */
  function Candidate(block: Row, isUrl: string -> bool): (c: Option<ForgeVersion>)
    ensures c.Some? ==> InstallerHref(c.value.url) && isUrl(c.value.url)
  {
    if block.versionCell.None? || block.versionCell.value.text.None? then None
    else
      var cell := block.versionCell.value;
      if !(cell.promoLatest.Some? || cell.promoRecommended.Some?) || block.links.None? then None
      else match InstallerLink(block.links.value)
        case None => None
        case Some(link) => if isUrl(link) then Some(ForgeVersion(cell.text.value, link)) else None
  }

  predicate Qualifies(block: Row, isUrl: string -> bool) {
    Candidate(block, isUrl).Some?
  }

  function QualifiesFor(isUrl: string -> bool): Row -> bool {
    block => Qualifies(block, isUrl)
  }

  /** The candidate of the last block that offers one. */
  function LastCandidate(blocks: seq<Row>, isUrl: string -> bool): Option<ForgeVersion> {
    match Last(blocks, QualifiesFor(isUrl))
    case None => None
    case Some(block) => Candidate(block, isUrl)
  }

  /**
    `ForgeVersion.latestVersion(from:)`: walk the blocks, overwriting the
    candidate each time a block qualifies. `page` is `None` when the
    document does not parse; blocks that cannot be selected are no blocks.
  */
  method LatestVersion(page: Option<seq<Row>>, isUrl: string -> bool) returns (latest: Option<ForgeVersion>)
    ensures page.None? ==> latest.None?
    ensures page.Some? ==> latest == LastCandidate(page.value, isUrl)
  {
    latest := None;
    if page.None? {
      return;
    }
    var blocks := page.value;
    for i := 0 to |blocks|
      invariant latest == LastCandidate(blocks[..i], isUrl)
    {
      LastCandidateStep(blocks[..i], blocks[i], isUrl);
      assert blocks[..i + 1] == blocks[..i] + [blocks[i]];
      var block := blocks[i];
      if block.versionCell.None? || block.versionCell.value.text.None? {
        assert Candidate(block, isUrl).None?;
        continue;
      }
      var cell := block.versionCell.value;
      var isLatest := cell.promoLatest.Some? || cell.promoRecommended.Some?;
      if !isLatest || block.links.None? {
        assert Candidate(block, isUrl).None?;
        continue;
      }
      var link := InstallerLink(block.links.value);
      if link.None? || !isUrl(link.value) {
        assert Candidate(block, isUrl).None?;
        continue;
      }
      latest := Some(ForgeVersion(cell.text.value, link.value));
      assert Candidate(block, isUrl) == latest;
    }
    assert blocks[..|blocks|] == blocks;
  }

  function PageLatest(page: Option<seq<Row>>, isUrl: string -> bool): Option<ForgeVersion> {
    if page.None? then None else LastCandidate(page.value, isUrl)
  }

  /**
    `installer(for:)`: a reply that is not a 200 page, or a page without a
    candidate, is a `serverDownload` error.
  */
  function Installer(reply: Response<Option<seq<Row>>>, isUrl: string -> bool): (installer: Outcome<ForgeVersion>)
    ensures installer.Ok? <==> Usable(reply) && PageLatest(reply.payload.value, isUrl).Some?
    ensures installer.Ok? ==> installer.value == PageLatest(reply.payload.value, isUrl).value
    ensures !Usable(reply) ==> installer == Err(Receive(reply).error)
    ensures Usable(reply) && installer.Err? ==> installer == Err(ServerDownload(NotFound))
  {
    var page :- Receive(reply);
    match PageLatest(page, isUrl)
    case None => Err(ServerDownload(NotFound))
    case Some(forge) => Ok(forge)
  }

  /** `runtime(for:)`: the installer, then the vanilla Java version. */
  function Runtime(version: GameVersion, reply: Response<Option<seq<Row>>>, isUrl: string -> bool, javaVersion: Outcome<nat>)
    : (runtime: Outcome<RuntimesProtocol.Runtime>)
    ensures Installer(reply, isUrl).Err? ==> runtime == Err(Installer(reply, isUrl).error)
    ensures Installer(reply, isUrl).Ok? && javaVersion.Err? ==> runtime == Err(javaVersion.error)
    ensures runtime.Ok? <==> Installer(reply, isUrl).Ok? && javaVersion.Ok?
    ensures runtime.Ok? ==>
      && runtime.value.url == Installer(reply, isUrl).value.url
      && runtime.value.name == RuntimeName(version.minecraft, Forge, Installer(reply, isUrl).value.version)
      && runtime.value.javaVersion == FromRawValue(javaVersion.value)
  {
    var forge :- Installer(reply, isUrl);
    var java :- javaVersion;
    Ok(MakeRuntime(version, forge.url, RuntimeName(version.minecraft, Forge, forge.version), FromRawValue(java)))
  }

  predicate Supported(release: GameVersion, probe: string -> Response<Option<seq<Row>>>, isUrl: string -> bool) {
    Installer(probe(release.minecraft), isUrl).Ok?
  }

  function SupportedBy(probe: string -> Response<Option<seq<Row>>>, isUrl: string -> bool): GameVersion -> bool {
    release => Supported(release, probe, isUrl)
  }

  /** One task of `availableVersions`: the release when `installer(for:)` succeeds for it, otherwise nothing. */
  method ProbeRelease(release: GameVersion, probe: string -> Response<Option<seq<Row>>>, isUrl: string -> bool)
    returns (found: Option<GameVersion>)
    ensures found.Some? <==> Supported(release, probe, isUrl)
    ensures found.Some? ==> found.value == release
  {
    var installer := Installer(probe(release.minecraft), isUrl);
    if installer.Err? {
      return None;
    }
    return Some(release);
  }

  /** `availableVersions`: the releases whose probe finds an installer, probed one by one. */
  method AvailableVersions(vanilla: Outcome<seq<GameVersion>>, probe: string -> Response<Option<seq<Row>>>, isUrl: string -> bool)
    returns (versions: Outcome<seq<GameVersion>>)
    ensures vanilla.Err? ==> versions == Err(vanilla.error)
    ensures vanilla.Ok? ==> versions == Ok(Filter(vanilla.value, SupportedBy(probe, isUrl)))
  {
    if vanilla.Err? {
      return Err(vanilla.error);
    }
    var releases := vanilla.value;
    var kept: seq<GameVersion> := [];
    for i := 0 to |releases|
      invariant kept == Filter(releases[..i], SupportedBy(probe, isUrl))
    {
      assert releases[..i + 1] == releases[..i] + [releases[i]];
      FilterSnoc(releases[..i], releases[i], SupportedBy(probe, isUrl));
      var found := ProbeRelease(releases[i], probe, isUrl);
      if found.Some? {
        kept := kept + [found.value];
      }
    }
    assert releases[..|releases|] == releases;
    versions := Ok(kept);
  }

  // ---------------------------------------------------------------------------
  // Facts

  /** A qualifying block appended after the others replaces the candidate; one that does not qualify leaves it. */
  lemma LastCandidateStep(blocks: seq<Row>, block: Row, isUrl: string -> bool)
    ensures LastCandidate(blocks + [block], isUrl) ==
      if Candidate(block, isUrl).Some? then Candidate(block, isUrl) else LastCandidate(blocks, isUrl)
  {
    LastSnoc(blocks, block, QualifiesFor(isUrl));
  }

  /** The kept candidate is that of the last qualifying block; there is none only when no block qualifies. */
  lemma LastCandidateChoice(blocks: seq<Row>, isUrl: string -> bool)
    ensures LastCandidate(blocks, isUrl).None? <==> forall b :: b in blocks ==> Candidate(b, isUrl).None?
    ensures LastCandidate(blocks, isUrl).Some? ==>
      exists k :: 0 <= k < |blocks| && Candidate(blocks[k], isUrl) == LastCandidate(blocks, isUrl) &&
        forall j :: k < j < |blocks| ==> Candidate(blocks[j], isUrl).None?
  {
    var last := Last(blocks, QualifiesFor(isUrl));
    if last.Some? {
      var k :| 0 <= k < |blocks| && blocks[k] == last.value && forall j :: k < j < |blocks| ==> !QualifiesFor(isUrl)(blocks[j]);
      assert Candidate(blocks[k], isUrl) == LastCandidate(blocks, isUrl);
    }
  }

  /**
    The flag test rejects a block only when both promotion selectors throw;
    a selector that finds no icon still counts as a flag.
  */
  lemma UnflaggedBlockSkipped(block: Row, isUrl: string -> bool)
    requires block.versionCell.Some?
    requires block.versionCell.value.promoLatest.None? && block.versionCell.value.promoRecommended.None?
    ensures Candidate(block, isUrl).None?
  {
  }

  /** A release is available exactly when its page is usable and some block qualifies. */
  lemma AvailableExactly(releases: seq<GameVersion>, probe: string -> Response<Option<seq<Row>>>, isUrl: string -> bool, v: GameVersion)
    ensures v in Filter(releases, SupportedBy(probe, isUrl)) <==>
      v in releases && Usable(probe(v.minecraft)) && probe(v.minecraft).payload.value.Some? &&
      exists b :: b in probe(v.minecraft).payload.value.value && Candidate(b, isUrl).Some?
  {
    FilterMembers(releases, SupportedBy(probe, isUrl), v);
    if probe(v.minecraft).Http? && probe(v.minecraft).payload.Some? && probe(v.minecraft).payload.value.Some? {
      LastCandidateChoice(probe(v.minecraft).payload.value.value, isUrl);
    }
  }
}
