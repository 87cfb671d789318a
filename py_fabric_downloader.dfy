/**
  The Python Fabric downloader (`FabricDownloader`): from the decoded
  installer and loader lists it picks an installer, records every usable
  loader as `<loader>/<installer>`, and takes the loader with the highest
  build number as the latest.

  JSON values are given decoded: a flag is its truthiness (a missing key is
  false), and a `version` field is kept as a value so that printing it
  behaves as `f"{...}"` does.
*/
module PyFabricDownloader {
  import opened Wrappers
  import opened Text
  import opened Seqs
  import opened PythonErrors

  const LoadersUrl: string := "https://meta.fabricmc.net/v2/versions/loader/"
  const InstallersUrl: string := "https://meta.fabricmc.net/v2/versions/installer"

  /** A decoded `version` value: missing, a string, or any other value with the text `str()` gives it. */
  datatype PyValue = PyNone | PyStr(s: string) | PyOther(printed: string)

  /** `f"{value}"`. */
  function Printed(v: PyValue): string {
    match v
    case PyNone => "None"
    case PyStr(s) => s
    case PyOther(printed) => printed
  }

  predicate NonEmptyStr(v: PyValue) {
    v.PyStr? && v.s != []
  }

  // ---------------------------------------------------------------------------
  // The installer

  /** An entry of the installer list: its `stable` flag and its `version`. */
  datatype InstallerItem = InstallerItem(stable: bool, version: PyValue)

  predicate Eligible(item: InstallerItem, allowUnstable: bool) {
    allowUnstable || item.stable
  }

  predicate Usable(item: InstallerItem, allowUnstable: bool) {
    Eligible(item, allowUnstable) && NonEmptyStr(item.version)
  }

  function EligibleFor(allowUnstable: bool): InstallerItem -> bool {
    item => Eligible(item, allowUnstable)
  }

  function UsableFor(allowUnstable: bool): InstallerItem -> bool {
    item => Usable(item, allowUnstable)
  }

  /**
    The installer version the selection loop ends with: the first eligible
    entry with a non-empty string version; failing that, whatever the last
    eligible entry holds; `None` when no entry is eligible.
  */
  function InstallerChoice(items: seq<InstallerItem>, allowUnstable: bool): PyValue {
    match First(items, UsableFor(allowUnstable))
    case Some(item) => item.version
    case None =>
      match Last(items, EligibleFor(allowUnstable))
      case Some(item) => item.version
      case None => PyNone
  }

  /** The value the loop variable holds after the entries seen so far, when none of them was usable. */
  function LastEligibleVersion(items: seq<InstallerItem>, allowUnstable: bool): PyValue {
    match Last(items, EligibleFor(allowUnstable))
    case Some(item) => item.version
    case None => PyNone
  }

  /** The installer loop: skip ineligible entries, take each eligible version, stop at a non-empty string. */
  method ChooseInstaller(items: seq<InstallerItem>, allowUnstable: bool) returns (installer: PyValue)
    ensures installer == InstallerChoice(items, allowUnstable)
  {
    installer := PyNone;
    for i := 0 to |items|
      invariant forall j :: 0 <= j < i ==> !UsableFor(allowUnstable)(items[j])
      invariant installer == LastEligibleVersion(items[..i], allowUnstable)
    {
      EligibleVersionStep(items, i, allowUnstable);
      if !allowUnstable && !items[i].stable {
        continue;
      }
      installer := items[i].version;
      if NonEmptyStr(installer) {
        FirstAt(items, UsableFor(allowUnstable), i);
        return;
      }
    }
    FirstNone(items, UsableFor(allowUnstable));
    assert items[..|items|] == items;
  }

  lemma EligibleVersionStep(items: seq<InstallerItem>, i: nat, allowUnstable: bool)
    requires i < |items|
    ensures LastEligibleVersion(items[..i + 1], allowUnstable) ==
      if Eligible(items[i], allowUnstable) then items[i].version else LastEligibleVersion(items[..i], allowUnstable)
  {
    assert items[..i + 1] == items[..i] + [items[i]];
    LastSnoc(items[..i], items[i], EligibleFor(allowUnstable));
  }

  // ---------------------------------------------------------------------------
  // The loaders

  /** The `loader` object of an entry: its `stable` flag, its `version`, and `int(build)`, `None` when the conversion raises. */
  datatype Loader = Loader(stable: bool, version: PyValue, build: Option<int>)

  /**
    An entry of the loader list; `loader` and `intermediary` are `None` when
    missing or empty, and of the intermediary only the `stable` flag is read.
  */
  datatype LoaderItem = LoaderItem(loader: Option<Loader>, intermediaryStable: Option<bool>)

  /** What is recorded for a loader: its build, whether both parts are stable, and `<loader>/<installer>`. */
  datatype VersionRecord = VersionRecord(rev: int, stable: bool, version: string)

  /** The record an entry yields, or none when the entry is skipped. */
  function RecordOf(item: LoaderItem, installer: string, allowUnstable: bool): (r: Option<VersionRecord>)
    ensures r.Some? ==> item.loader.Some? && NonEmptyStr(item.loader.value.version)
    ensures r.Some? ==> r.value.version == item.loader.value.version.s + "/" + installer
    ensures r.Some? && !allowUnstable ==> r.value.stable
  {
    if item.loader.None? || item.intermediaryStable.None? then None
    else
      var loader := item.loader.value;
      var isStable := loader.stable && item.intermediaryStable.value;
      if !allowUnstable && !isStable then None
      else if !NonEmptyStr(loader.version) then None
      else
        var rev := if loader.build.Some? then loader.build.value else -1;
        Some(VersionRecord(rev, isStable, loader.version.s + "/" + installer))
  }

  /** The records of the entries, in list order. */
  function Records(items: seq<LoaderItem>, installer: string, allowUnstable: bool): seq<VersionRecord> {
    if items == [] then []
    else
      var last := RecordOf(items[|items| - 1], installer, allowUnstable);
      Records(items[..|items| - 1], installer, allowUnstable) + if last.Some? then [last.value] else []
  }

  function RevOf(r: Option<VersionRecord>): int {
    if r.Some? then r.value.rev else -1
  }

  /** The latest record: the first one with the greatest build, as long as that build is above -1. */
  function Best(records: seq<VersionRecord>): (best: Option<VersionRecord>)
    ensures best.None? <==> forall r :: r in records ==> r.rev <= -1
    ensures best.Some? ==> best.value in records && best.value.rev > -1
    ensures best.Some? ==> forall r :: r in records ==> r.rev <= best.value.rev
    ensures best.Some? ==>
      exists k :: 0 <= k < |records| && records[k] == best.value && forall j :: 0 <= j < k ==> records[j].rev < best.value.rev
  {
    if records == [] then None
    else
      var init := records[..|records| - 1];
      var last := records[|records| - 1];
      assert records == init + [last];
      var best := Best(init);
      if last.rev > RevOf(best) then Some(last) else best
  }

  /** What `get_fabric_versions` returns: the records and the latest one's version string. */
  datatype FabricVersions = FabricVersions(versions: seq<VersionRecord>, latest: Option<string>)

  function LatestOf(records: seq<VersionRecord>): Option<string> {
    if Best(records).Some? then Some(Best(records).value.version) else None
  }

  /** What `get_fabric_versions` returns for the installer and loader lists it reads. */
  function FabricVersionsOf(loaderContent: seq<LoaderItem>, installerContent: seq<InstallerItem>, allowUnstable: bool): FabricVersions {
    if loaderContent == [] || installerContent == [] then FabricVersions([], None)
    else
      var versions := Records(loaderContent, Printed(InstallerChoice(installerContent, allowUnstable)), allowUnstable);
      FabricVersions(versions, LatestOf(versions))
  }

  /**
    `get_fabric_versions`: an empty installer or loader list gives no
    versions; otherwise choose the installer, then walk the loaders,
    recording the usable ones and keeping the one with the greatest build.
  */
  method GetFabricVersions(loaderContent: seq<LoaderItem>, installerContent: seq<InstallerItem>, allowUnstable: bool)
    returns (data: FabricVersions)
    ensures loaderContent == [] || installerContent == [] ==> data == FabricVersions([], None)
    ensures loaderContent != [] && installerContent != [] ==>
      var installer := Printed(InstallerChoice(installerContent, allowUnstable));
      && data.versions == Records(loaderContent, installer, allowUnstable)
      && data.latest == LatestOf(data.versions)
    ensures data == FabricVersionsOf(loaderContent, installerContent, allowUnstable)
  {
    if loaderContent == [] || installerContent == [] {
      return FabricVersions([], None);
    }
    var installerVersion := ChooseInstaller(installerContent, allowUnstable);
    var installer := Printed(installerVersion);
    var versions: seq<VersionRecord> := [];
    var latest: Option<VersionRecord> := None;
    for i := 0 to |loaderContent|
      invariant versions == Records(loaderContent[..i], installer, allowUnstable)
      invariant latest == Best(versions)
    {
      assert loaderContent[..i + 1][..i] == loaderContent[..i];
      var record := RecordOf(loaderContent[i], installer, allowUnstable);
      if record.None? {
        continue;
      }
      assert (versions + [record.value])[..|versions|] == versions;
      versions := versions + [record.value];
      if record.value.rev > RevOf(latest) {
        latest := record;
      }
    }
    assert loaderContent[..|loaderContent|] == loaderContent;
    data := FabricVersions(versions, if latest.Some? then Some(latest.value.version) else None);
  }

  /** `_assemble_download_url`. */
  function AssembleDownloadUrl(minecraft: string, fabric: string): string {
    LoadersUrl + minecraft + "/" + fabric + "/server/jar"
  }

  /**
    `get_download_url`: the versions are read with unstable loaders left
    out, since the call keeps `allow_unstable` at its default. No latest
    version is a `FabricVersionNotFoundError`; otherwise the URL names the
    latest version, a stable loader with the greatest build.
  */
  method DownloadUrl(minecraft: string, loaderContent: seq<LoaderItem>, installerContent: seq<InstallerItem>)
    returns (url: Raises<string>)
    ensures var data := FabricVersionsOf(loaderContent, installerContent, false);
      && (url.Err? <==> data.latest.None?)
      && (url.Err? ==> url.error == FabricVersionNotFoundError)
      && (url.Ok? ==> url.value == AssembleDownloadUrl(minecraft, data.latest.value))
    ensures url.Ok? ==>
      var records := Records(loaderContent, Printed(InstallerChoice(installerContent, false)), false);
      exists r :: r in records && r.stable && r.rev > -1 && url.value == AssembleDownloadUrl(minecraft, r.version) &&
        forall q :: q in records ==> q.rev <= r.rev
  {
    var data := GetFabricVersions(loaderContent, installerContent, false);
    if data.latest.None? || data.latest.value == [] {
      if data.latest.Some? {
        RecordsShape(loaderContent, Printed(InstallerChoice(installerContent, false)), false);
        RecordVersionsNotEmpty(data.versions);
      }
      return Err(FabricVersionNotFoundError);
    }
    RecordsShape(loaderContent, Printed(InstallerChoice(installerContent, false)), false);
    url := Ok(AssembleDownloadUrl(minecraft, data.latest.value));
  }

  // ---------------------------------------------------------------------------
  // Facts

  /** Every record names its loader and installer around a `/`; without unstable loaders allowed, every record is stable. */
  lemma {:induction false} RecordsShape(items: seq<LoaderItem>, installer: string, allowUnstable: bool)
    ensures forall r :: r in Records(items, installer, allowUnstable) ==> '/' in r.version
    ensures !allowUnstable ==> forall r :: r in Records(items, installer, allowUnstable) ==> r.stable
  {
    if items != [] {
      RecordsShape(items[..|items| - 1], installer, allowUnstable);
      var last := RecordOf(items[|items| - 1], installer, allowUnstable);
      if last.Some? {
        var loader := items[|items| - 1].loader.value.version.s;
        assert last.value.version[|loader|] == '/';
      }
    }
  }

  /** A latest version, when there is one, is `<loader>/<installer>` and so never empty. */
  lemma RecordVersionsNotEmpty(records: seq<VersionRecord>)
    requires forall r :: r in records ==> '/' in r.version
    ensures LatestOf(records).Some? ==> LatestOf(records).value != []
  {
  }

  /** A build that does not convert to an integer still lists the loader, but never as the latest. */
  lemma UnconvertibleBuildNeverLatest(records: seq<VersionRecord>, r: VersionRecord)
    requires r.rev == -1
    ensures Best(records) != Some(r)
  {
  }

  /** Records follow the loader list: appending entries appends their records. */
  lemma {:induction false} RecordsAppend(a: seq<LoaderItem>, b: seq<LoaderItem>, installer: string, allowUnstable: bool)
    ensures Records(a + b, installer, allowUnstable) == Records(a, installer, allowUnstable) + Records(b, installer, allowUnstable)
    decreases |b|
  {
    if b != [] {
      var init := b[..|b| - 1];
      assert (a + b)[..|a + b| - 1] == a + init;
      assert (a + b)[|a + b| - 1] == b[|b| - 1];
      RecordsAppend(a, init, installer, allowUnstable);
    } else {
      assert a + b == a;
    }
  }

  /** A loader with a strictly higher build appended to the list becomes the latest. */
  lemma HigherBuildTakesOver(records: seq<VersionRecord>, r: VersionRecord)
    requires forall x :: x in records ==> x.rev < r.rev
    requires r.rev > -1
    ensures Best(records + [r]) == Some(r)
  {
    assert (records + [r])[..|records|] == records;
  }

  /** A later loader with the same build does not replace the earlier one. */
  lemma TieKeepsEarlier(records: seq<VersionRecord>, r: VersionRecord)
    requires Best(records).Some? && r.rev == Best(records).value.rev
    ensures Best(records + [r]) == Best(records)
  {
    assert (records + [r])[..|records|] == records;
  }

  /** Without `allow_unstable`, an installer list with no stable entry leaves the installer `None`, printed into every record. */
  lemma NoStableInstallerPrintsNone(items: seq<InstallerItem>)
    requires forall i :: 0 <= i < |items| ==> !items[i].stable
    ensures Printed(InstallerChoice(items, false)) == "None"
  {
  }

  /**
    When no eligible installer has a non-empty string version, the last
    eligible entry's value is used anyway.
  */
  lemma FallsBackToLastEligible(items: seq<InstallerItem>, allowUnstable: bool, k: nat)
    requires k < |items| && Eligible(items[k], allowUnstable)
    requires forall i :: 0 <= i < |items| ==> !Usable(items[i], allowUnstable)
    requires forall i :: k < i < |items| ==> !Eligible(items[i], allowUnstable)
    ensures InstallerChoice(items, allowUnstable) == items[k].version
  {
    assert EligibleFor(allowUnstable)(items[k]);
  }
}
