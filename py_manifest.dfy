/**
  Mojang's version manifest as the Python downloaders read it, and the
  release table both of them build from it (`_game_versions`): release ids
  mapped to their manifest URLs.
*/
module PyManifest {
  import opened Wrappers
  import opened Seqs
  import opened PyDict

  /** One entry of the manifest's `versions` list: its `type`, `id` and `url`, `None` where the key is missing. */
  datatype ManifestItem = ManifestItem(kind: Option<string>, id: Option<string>, url: Option<string>)

  predicate IsRelease(item: ManifestItem) {
    item.kind == Some("release")
  }

  /** The release table: every release entry in turn assigns its URL to its id. */
  function ReleaseUrls(items: seq<ManifestItem>): Dict<Option<string>, Option<string>> {
    if items == [] then []
    else
      var table := ReleaseUrls(items[..|items| - 1]);
      var item := items[|items| - 1];
      if IsRelease(item) then Set(table, item.id, item.url) else table
  }

  /** The ids of the release entries, in manifest order, repeats included. */
  function ReleaseIds(items: seq<ManifestItem>): (ids: seq<Option<string>>)
    ensures forall k :: k in ids <==> exists i :: 0 <= i < |items| && IsRelease(items[i]) && items[i].id == k
  {
    if items == [] then []
    else
      var init := items[..|items| - 1];
      var item := items[|items| - 1];
      assert forall i :: 0 <= i < |init| ==> init[i] == items[i];
      ReleaseIds(init) + if IsRelease(item) then [item.id] else []
  }

  // ---------------------------------------------------------------------------
  // Facts

  /** The table's keys are the release ids at their first occurrence, in manifest order. */
  lemma {:induction false} ReleaseKeysInManifestOrder(items: seq<ManifestItem>)
    ensures Keys(ReleaseUrls(items)) == Dedupe(ReleaseIds(items))
  {
    if items != [] {
      var init := items[..|items| - 1];
      var item := items[|items| - 1];
      ReleaseKeysInManifestOrder(init);
      if IsRelease(item) {
        DedupeSnoc(ReleaseIds(init), item.id);
        assert item.id in Keys(ReleaseUrls(init)) <==> item.id in Dedupe(ReleaseIds(init));
      } else {
        assert ReleaseIds(items) == ReleaseIds(init);
      }
    }
  }

  /** An id's URL is that of the last release entry carrying the id. */
  lemma {:induction false} LastReleaseUrlWins(items: seq<ManifestItem>, j: nat)
    requires j < |items| && IsRelease(items[j])
    requires forall i :: j < i < |items| ==> !(IsRelease(items[i]) && items[i].id == items[j].id)
    ensures Get(ReleaseUrls(items), items[j].id) == Some(items[j].url)
  {
    if j < |items| - 1 {
      LastReleaseUrlWins(items[..|items| - 1], j);
    }
  }

  /** An id is in the table exactly when some release entry carries it. */
  lemma {:induction false} ReleaseTableMembers(items: seq<ManifestItem>, k: Option<string>)
    ensures Get(ReleaseUrls(items), k).Some? <==> k in ReleaseIds(items)
  {
    ReleaseKeysInManifestOrder(items);
    assert k in Dedupe(ReleaseIds(items)) <==> k in ReleaseIds(items) by {
      if k in ReleaseIds(items) {
        var i :| 0 <= i < |ReleaseIds(items)| && ReleaseIds(items)[i] == k;
      }
      if k in Dedupe(ReleaseIds(items)) {
        var i :| 0 <= i < |Dedupe(ReleaseIds(items))| && Dedupe(ReleaseIds(items))[i] == k;
      }
    }
  }
}
