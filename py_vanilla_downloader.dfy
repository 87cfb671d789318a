/**
  The Python vanilla downloader (`VanillaDownloader`): the release table of
  the version manifest, and the server download URL of a release, read from
  that release's own manifest.
*/
module PyVanillaDownloader {
  import opened Wrappers
  import opened Text
  import opened PyDict
  import opened PyManifest
  import opened PythonErrors

  /** `_get_file_name`. */
  function FileName(version: string): (name: string)
    ensures HasSuffix(name, ".jar") && HasPrefix(name, version) && |name| == |version| + 4
  {
    var name := version + ".jar";
    assert name[..|version|] == version && name[|version|..] == ".jar";
    name
  }

  /** `_game_versions`: fill the table entry by entry. */
  method GameVersions(manifest: seq<ManifestItem>) returns (versions: Dict<Option<string>, Option<string>>)
    ensures versions == ReleaseUrls(manifest)
  {
    versions := [];
    for i := 0 to |manifest|
      invariant versions == ReleaseUrls(manifest[..i])
    {
      assert manifest[..i + 1][..i] == manifest[..i];
      var item := manifest[i];
      if item.kind == Some("release") {
        versions := Set(versions, item.id, item.url);
      }
    }
    assert manifest[..|manifest|] == manifest;
  }

  /**
    `get_download_url`: look the release up (a `KeyError` when it is not a
    release), fetch its manifest and read `downloads.server.url`, which is
    `None` when any of the three keys is missing. `serverUrlOf` is what that
    lookup yields for the manifest behind a URL.
  */
  function DownloadUrl(manifest: seq<ManifestItem>, version: string, serverUrlOf: Option<string> -> Option<string>)
    : (url: Raises<Option<string>>)
    ensures url.Err? <==> Some(version) !in ReleaseIds(manifest)
    ensures url.Err? ==> url.error == KeyError
  {
    ReleaseTableMembers(manifest, Some(version));
    match Get(ReleaseUrls(manifest), Some(version))
    case None => Err(KeyError)
    case Some(manifestUrl) => Ok(serverUrlOf(manifestUrl))
  }

  // ---------------------------------------------------------------------------
  // Facts

  /** The server URL comes from the manifest of the last release entry with the requested id. */
  lemma DownloadUrlOfLastEntry(manifest: seq<ManifestItem>, version: string, serverUrlOf: Option<string> -> Option<string>, j: nat)
    requires j < |manifest| && IsRelease(manifest[j]) && manifest[j].id == Some(version)
    requires forall i :: j < i < |manifest| ==> !(IsRelease(manifest[i]) && manifest[i].id == Some(version))
    ensures DownloadUrl(manifest, version, serverUrlOf) == Ok(serverUrlOf(manifest[j].url))
  {
    LastReleaseUrlWins(manifest, j);
  }

  /** Snapshots and other non-release entries are never downloadable, whatever their id. */
  lemma OnlyReleasesDownloadable(manifest: seq<ManifestItem>, version: string, serverUrlOf: Option<string> -> Option<string>)
    requires forall i :: 0 <= i < |manifest| && manifest[i].id == Some(version) ==> !IsRelease(manifest[i])
    ensures DownloadUrl(manifest, version, serverUrlOf) == Err(KeyError)
  {
  }
}
