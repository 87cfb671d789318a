/**
  The Python Java-edition server downloader (`Java_ServerDownloader`): the
  release table of the version manifest, the releases it supports (back to
  1.7.2), and a download that is checked against the manifest's size and
  SHA-1.
*/
module PyJavaServerDownloader {
  import opened Wrappers
  import opened Text
  import opened Seqs
  import opened PyDict
  import opened PyManifest
  import opened PythonErrors

  const EarliestSupportedVersion: string := "1.7.2"

  /** `_get_file_name`. */
  function FileName(version: string): (name: string)
    ensures HasSuffix(name, ".jar") && HasPrefix(name, version) && |name| == |version| + 4
  {
    var name := version + ".jar";
    assert name[..|version|] == version && name[|version|..] == ".jar";
    name
  }

  /** `_game_versions`: fill the table entry by entry. */
  method GameVersions(manifest: seq<ManifestItem>) returns (versions: Dict<Option<string>, Option<string>>)
    ensures versions == ReleaseUrls(manifest)
  {
    versions := [];
    for i := 0 to |manifest|
      invariant versions == ReleaseUrls(manifest[..i])
    {
      assert manifest[..i + 1][..i] == manifest[..i];
      var item := manifest[i];
      if item.kind == Some("release") {
        versions := Set(versions, item.id, item.url);
      }
    }
    assert manifest[..|manifest|] == manifest;
  }

  function IsEarliest(key: Option<string>): bool {
    key == Some(EarliestSupportedVersion)
  }

  /**
    `get_available_game_versions`: the table's ids, newest first, cut after
    the earliest supported version; `list.index` raises `ValueError` when
    that version is not listed.
  */
  function AvailableGameVersions(manifest: seq<ManifestItem>): (versions: Raises<seq<Option<string>>>)
    ensures versions.Err? <==> Some(EarliestSupportedVersion) !in ReleaseIds(manifest)
    ensures versions.Err? ==> versions.error == ValueError
    ensures versions.Ok? ==>
      var keys := Keys(ReleaseUrls(manifest));
      var n := |versions.value|;
      && 0 < n <= |keys|
      && versions.value == keys[..n]
      && versions.value[n - 1] == Some(EarliestSupportedVersion)
      && Some(EarliestSupportedVersion) !in versions.value[..n - 1]
  {
    var keys := Keys(ReleaseUrls(manifest));
    ReleaseTableMembers(manifest, Some(EarliestSupportedVersion));
    var k := FirstIndex(keys, IsEarliest);
    if k == |keys| then
      assert Some(EarliestSupportedVersion) !in keys;
      Err(ValueError)
    else
      assert keys[..k + 1][..k] == keys[..k];
      Ok(keys[..k + 1])
  }

  /** What the release's manifest says under `downloads.server`; `None` for a missing key. */
  datatype ServerDownloads = ServerDownloads(url: Option<string>, size: Option<int>, sha1: Option<string>)

  /** What is found at the destination after the download: whether the file is there, its size and SHA-1. */
  datatype SavedFile = SavedFile(present: bool, size: int, sha1: string)

  /** `os.path.join` for two POSIX path components. */
  function PathJoin(directory: string, name: string): (path: string)
    ensures HasSuffix(path, name)
  {
    if HasPrefix(name, "/") || directory == [] then name
    else if HasSuffix(directory, "/") then directory + name
    else directory + "/" + name
  }

  predicate Truthy(s: Option<string>) {
    s.Some? && s.value != []
  }

  /**
    `_download`: look the release up (a `KeyError` when it is not a
    release), read its manifest, fetch the server jar when there is a URL,
    and check that the file is there with the expected size and SHA-1.
    Every failed check surfaces as `ServerDownloadError`.
  */
  function Download(
    manifest: seq<ManifestItem>,
    version: string,
    saveLocation: string,
    downloadsOf: Option<string> -> ServerDownloads,
    saved: SavedFile)
    : (path: Raises<string>)
    ensures path == Err(KeyError) <==> Some(version) !in ReleaseIds(manifest)
    ensures path.Ok? <==>
      && Get(ReleaseUrls(manifest), Some(version)).Some?
      && var server := downloadsOf(Get(ReleaseUrls(manifest), Some(version)).value);
      && Truthy(server.url)
      && saved.present
      && server.size == Some(saved.size)
      && server.sha1 == Some(saved.sha1)
    ensures path.Ok? ==> path.value == PathJoin(saveLocation, FileName(version))
    ensures path.Err? ==> path.error in {KeyError, ServerDownloadError}
  {
    var destination := PathJoin(saveLocation, FileName(version));
    ReleaseTableMembers(manifest, Some(version));
    match Get(ReleaseUrls(manifest), Some(version))
    case None => Err(KeyError)
    case Some(manifestUrl) =>
      var server := downloadsOf(manifestUrl);
      if !Truthy(server.url) then Err(ServerDownloadError)
      else if !saved.present then Err(ServerDownloadError)
      else if server.size != Some(saved.size) then Err(ServerDownloadError)
      else if server.sha1 != Some(saved.sha1) then Err(ServerDownloadError)
      else Ok(destination)
  }

  // ---------------------------------------------------------------------------
  // Facts

  /** The supported versions start with the manifest's first release, the newest. */
  lemma NewestReleaseFirst(manifest: seq<ManifestItem>)
    requires AvailableGameVersions(manifest).Ok?
    ensures ReleaseIds(manifest) != []
    ensures AvailableGameVersions(manifest).value[0] == ReleaseIds(manifest)[0]
  {
    ReleaseKeysInManifestOrder(manifest);
    DedupeHead(ReleaseIds(manifest));
  }

  /** Every supported version is a release of the manifest. */
  lemma SupportedAreReleases(manifest: seq<ManifestItem>, v: Option<string>)
    requires AvailableGameVersions(manifest).Ok? && v in AvailableGameVersions(manifest).value
    ensures v in ReleaseIds(manifest)
  {
    var keys := Keys(ReleaseUrls(manifest));
    ReleaseKeysInManifestOrder(manifest);
    assert v in keys;
    var i :| 0 <= i < |keys| && keys[i] == v;
    assert Dedupe(ReleaseIds(manifest))[i] in ReleaseIds(manifest);
  }
}
