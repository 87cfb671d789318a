/**
  The Python Forge downloader (`ForgeDownloader`): the Forge versions a
  Minecraft version's download page links to, sorted as strings and
  deduplicated, the last of them taken as the latest, and the first
  recommended one preferred for the download.

  The regular-expression searches are given as their results: `matches`
  are the versions captured from the download links in page order,
  `recommended` the versions flagged as recommended.
*/
module PyForgeDownloader {
  import opened Wrappers
  import opened Text
  import opened Seqs
  import opened PythonErrors

  const VersionsPagePrefix: string := "https://files.minecraftforge.net/net/minecraftforge/forge/index_"
  const DownloadBase: string := "https://maven.minecraftforge.net/net/minecraftforge/forge/"

  /** The page listing the Forge versions of a Minecraft version. */
  function VersionsPageUrl(minecraft: string): string {
    VersionsPagePrefix + minecraft + ".html"
  }

  /** `_assemble_download_url`: `<mc>-<forge>/forge-<mc>-<forge>-installer.jar` under the Maven base. */
  function AssembleDownloadUrl(minecraft: string, forge: string): (url: string)
    ensures HasPrefix(url, DownloadBase + minecraft + "-" + forge + "/")
    ensures HasSuffix(url, FileName(minecraft + "-" + forge))
  {
    var dir := DownloadBase + minecraft + "-" + forge + "/";
    var name := FileName(minecraft + "-" + forge);
    assert (dir + name)[..|dir|] == dir;
    assert (dir + name)[|dir + name| - |name|..] == name;
    dir + name
  }

  /** `_get_file_name`. */
  function FileName(version: string): (name: string)
    ensures HasPrefix(name, "forge-") && HasSuffix(name, "-installer.jar")
    ensures |name| == |version| + 20
  {
    var name := "forge-" + version + "-installer.jar";
    assert name[..6] == "forge-";
    assert name[|name| - 14..] == "-installer.jar";
    name
  }

  // ---------------------------------------------------------------------------
  // Python string order and `list.sort()`

  /** `a < b` on Python strings: code point by code point, a proper prefix first. */
  predicate StrLess(a: string, b: string) {
    if a == [] then b != []
    else if b == [] then false
    else if a[0] != b[0] then a[0] < b[0]
    else StrLess(a[1..], b[1..])
  }

  predicate StrLeq(a: string, b: string) {
    a == b || StrLess(a, b)
  }

  predicate Sorted(s: seq<string>) {
    forall i, j :: 0 <= i < j < |s| ==> StrLeq(s[i], s[j])
  }

  /** One insertion step of the sort: `x` goes before the first element it does not exceed. */
  function Insert(x: string, s: seq<string>): (r: seq<string>)
    ensures |r| == |s| + 1
    ensures multiset(r) == multiset(s) + multiset{x}
  {
    if s == [] then [x]
    else if StrLeq(x, s[0]) then [x] + s
    else
      assert s == [s[0]] + s[1..];
      [s[0]] + Insert(x, s[1..])
  }

  /** `list.sort()` on strings: insertion of every element into the sorted rest. */
  function SortStrings(s: seq<string>): (r: seq<string>)
    ensures |r| == |s|
    ensures multiset(r) == multiset(s)
  {
    if s == [] then []
    else
      assert s == [s[0]] + s[1..];
      Insert(s[0], SortStrings(s[1..]))
  }

  // ---------------------------------------------------------------------------
  // Versions

  /** The dedupe loop: each version at its first occurrence, in order. */
  method DedupeVersions(versionData: seq<string>) returns (forgeVersions: seq<string>)
    ensures forgeVersions == Dedupe(versionData)
  {
    forgeVersions := [];
    for i := 0 to |versionData|
      invariant forgeVersions == Dedupe(versionData[..i])
    {
      assert versionData[..i + 1] == versionData[..i] + [versionData[i]];
      DedupeSnoc(versionData[..i], versionData[i]);
      if versionData[i] !in forgeVersions {
        forgeVersions := forgeVersions + [versionData[i]];
      }
    }
    assert versionData[..|versionData|] == versionData;
  }

  /** The versions offered for the matches: sorted as strings, then deduplicated. */
  function Offered(matches: seq<string>): (versions: seq<string>)
    ensures versions == [] <==> matches == []
  {
    var sorted := SortStrings(matches);
    DedupeEmpty(sorted);
    Dedupe(sorted)
  }

  /** What `get_forge_versions` returns; `latest` and `recommended` are `None` where the key is not set. */
  datatype ForgeVersions = ForgeVersions(versions: seq<string>, latest: Option<string>, recommended: Option<string>)

  /**
    `get_forge_versions`: an empty page gives no versions at all; otherwise
    the matches are sorted and deduplicated, the last is the latest (an
    `IndexError` when there is none) and the first recommended match, if
    any, is the recommended version.
  */
  method GetForgeVersions(html: string, matches: seq<string>, recommended: seq<string>) returns (data: Raises<ForgeVersions>)
    ensures html == [] ==> data == Ok(ForgeVersions([], None, None))
    ensures html != [] ==> (data.Err? <==> matches == [])
    ensures data.Err? ==> data.error == IndexError
    ensures html != [] && data.Ok? ==>
      && data.value.versions == Offered(matches)
      && data.value.latest == Some(Offered(matches)[|Offered(matches)| - 1])
      && data.value.recommended == (if recommended == [] then None else Some(recommended[0]))
  {
    if html == [] {
      return Ok(ForgeVersions([], None, None));
    }
    var versionData := SortStrings(matches);
    var forgeVersions := DedupeVersions(versionData);
    assert forgeVersions == Offered(matches);
    if forgeVersions == [] {
      return Err(IndexError);
    }
    var best := if recommended == [] then None else Some(recommended[0]);
    data := Ok(ForgeVersions(forgeVersions, Some(forgeVersions[|forgeVersions| - 1]), best));
  }

  /**
    `get_download_url`: the recommended version when there is one, the
    latest otherwise. The fallback `versions["latest"]` is evaluated first,
    so a result without `latest` raises `KeyError` either way.
  */
  function DownloadUrl(minecraft: string, data: ForgeVersions): (url: Raises<string>)
    ensures url.Err? <==> data.latest.None?
    ensures url.Err? ==> url.error == KeyError
    ensures url.Ok? && data.recommended.Some? ==> url.value == AssembleDownloadUrl(minecraft, data.recommended.value)
    ensures url.Ok? && data.recommended.None? ==> url.value == AssembleDownloadUrl(minecraft, data.latest.value)
  {
    if data.latest.None? then Err(KeyError)
    else Ok(AssembleDownloadUrl(minecraft, data.recommended.GetOr(data.latest.value)))
  }

  // ---------------------------------------------------------------------------
  // Facts about the string order

  lemma {:induction false} StrLessIrreflexive(a: string)
    ensures !StrLess(a, a)
  {
    if a != [] {
      StrLessIrreflexive(a[1..]);
    }
  }

  lemma {:induction false} StrLessTotal(a: string, b: string)
    ensures StrLess(a, b) || a == b || StrLess(b, a)
  {
    if a != [] && b != [] && a[0] == b[0] {
      StrLessTotal(a[1..], b[1..]);
      assert a == [a[0]] + a[1..] && b == [b[0]] + b[1..];
    }
  }

  lemma {:induction false} StrLessTransitive(a: string, b: string, c: string)
    requires StrLess(a, b) && StrLess(b, c)
    ensures StrLess(a, c)
  {
    if a != [] && a[0] == b[0] && b[0] == c[0] {
      StrLessTransitive(a[1..], b[1..], c[1..]);
    }
  }

  lemma StrLeqTransitive(a: string, b: string, c: string)
    requires StrLeq(a, b) && StrLeq(b, c)
    ensures StrLeq(a, c)
  {
    if a != b && b != c {
      StrLessTransitive(a, b, c);
    }
  }

  // ---------------------------------------------------------------------------
  // Facts about the sort

  /** Inserting into a sorted list keeps it sorted. */
  lemma {:induction false} InsertSorted(x: string, s: seq<string>)
    requires Sorted(s)
    ensures Sorted(Insert(x, s))
  {
    if s == [] {
    } else if StrLeq(x, s[0]) {
      var r := Insert(x, s);
      forall i, j | 0 <= i < j < |r|
        ensures StrLeq(r[i], r[j])
      {
        if i == 0 && j > 1 {
          StrLeqTransitive(x, s[0], s[j - 1]);
        }
      }
    } else {
      var rest := Insert(x, s[1..]);
      InsertSorted(x, s[1..]);
      StrLessTotal(x, s[0]);
      var r := [s[0]] + rest;
      forall k | 0 <= k < |rest|
        ensures StrLeq(s[0], rest[k])
      {
        assert rest[k] in multiset(rest);
        if rest[k] != x {
          assert rest[k] in s[1..];
          var m :| 0 <= m < |s[1..]| && s[1..][m] == rest[k];
          assert s[m + 1] == rest[k];
        }
      }
      forall i, j | 0 <= i < j < |r|
        ensures StrLeq(r[i], r[j])
      {
        if i > 0 {
          assert r[i] == rest[i - 1] && r[j] == rest[j - 1];
        } else {
          assert r[j] == rest[j - 1];
        }
      }
    }
  }

  /** The sort's result is in ascending string order. */
  lemma {:induction false} SortStringsSorted(s: seq<string>)
    ensures Sorted(SortStrings(s))
  {
    if s != [] {
      SortStringsSorted(s[1..]);
      InsertSorted(s[0], SortStrings(s[1..]));
    }
  }

  // ---------------------------------------------------------------------------
  // Facts about the selection

  /** Deduplicating a sorted list keeps it sorted, now without repeats. */
  lemma {:induction false} DedupeSorted(s: seq<string>)
    requires Sorted(s)
    ensures Sorted(Dedupe(s))
  {
    if s != [] {
      var init := s[..|s| - 1];
      var x := s[|s| - 1];
      assert Sorted(init);
      DedupeSorted(init);
      var d := Dedupe(init);
      forall i | 0 <= i < |d|
        ensures StrLeq(d[i], x)
      {
        assert d[i] in init;
        var k :| 0 <= k < |init| && init[k] == d[i];
        assert s[k] == d[i];
      }
    }
  }

  /** The last element of a sorted list is its greatest. */
  lemma SortedLastIsGreatest(s: seq<string>, m: string)
    requires Sorted(s) && m in s
    ensures StrLeq(m, s[|s| - 1])
  {
    var j :| 0 <= j < |s| && s[j] == m;
    if j < |s| - 1 {
      assert StrLeq(s[j], s[|s| - 1]);
    }
  }

  /** The offered versions are the matches, in ascending string order, each once. */
  lemma {:induction false} OfferedAreSortedMatches(matches: seq<string>, v: string)
    ensures Sorted(Offered(matches))
    ensures v in Offered(matches) <==> v in matches
  {
    var sorted := SortStrings(matches);
    SortStringsSorted(matches);
    DedupeSorted(sorted);
    assert v in sorted <==> v in multiset(matches);
  }

  /** The latest version is the greatest match in string order. */
  lemma LatestIsGreatestString(matches: seq<string>, m: string)
    requires m in matches
    ensures Offered(matches) != []
    ensures StrLeq(m, Offered(matches)[|Offered(matches)| - 1])
  {
    OfferedAreSortedMatches(matches, m);
    SortedLastIsGreatest(Offered(matches), m);
  }

  // ---------------------------------------------------------------------------
  // String order is not version order

  /** The numeric components of a version string, the way version numbers are compared. */
  function NumericKey(v: string): seq<nat> {
    CompactMapUInt(Split(v, '.'))
  }

  /** Component lists compared one component at a time; a proper prefix comes first. */
  predicate KeyLess(a: seq<nat>, b: seq<nat>) {
    if a == [] then b != []
    else if b == [] then false
    else if a[0] != b[0] then a[0] < b[0]
    else KeyLess(a[1..], b[1..])
  }

  lemma {:induction false} KeyLessTransitive(a: seq<nat>, b: seq<nat>, c: seq<nat>)
    requires KeyLess(a, b) && KeyLess(b, c)
    ensures KeyLess(a, c)
  {
    if a != [] && a[0] == b[0] && b[0] == c[0] {
      KeyLessTransitive(a[1..], b[1..], c[1..]);
    }
  }

  lemma {:induction false} KeyLessIrreflexive(a: seq<nat>)
    ensures !KeyLess(a, a)
  {
    if a != [] {
      KeyLessIrreflexive(a[1..]);
    }
  }

  /** As written: the latest is the last offered version, the greatest in string order. */
  function LatestAsWritten(matches: seq<string>): (latest: string)
    requires matches != []
    ensures latest in matches
  {
    OfferedAreSortedMatches(matches, Offered(matches)[|Offered(matches)| - 1]);
    Offered(matches)[|Offered(matches)| - 1]
  }

  /**
    As intended (the sort is meant to run from oldest to newest): a version
    no other version is numerically above, the first such one in a left
    fold that only replaces its candidate by a strictly newer version.
  */
  function NewestByNumber(versions: seq<string>): (newest: string)
    requires versions != []
    ensures newest in versions
    ensures forall v :: v in versions ==> !KeyLess(NumericKey(newest), NumericKey(v))
  {
    if |versions| == 1 then
      KeyLessIrreflexive(NumericKey(versions[0]));
      versions[0]
    else
      var init := versions[..|versions| - 1];
      var last := versions[|versions| - 1];
      assert versions == init + [last];
      var candidate := NewestByNumber(init);
      if KeyLess(NumericKey(candidate), NumericKey(last)) then
        KeyLessIrreflexive(NumericKey(last));
        assert forall v :: v in init ==> !KeyLess(NumericKey(last), NumericKey(v)) by {
          forall v | v in init
            ensures !KeyLess(NumericKey(last), NumericKey(v))
          {
            if KeyLess(NumericKey(last), NumericKey(v)) {
              KeyLessTransitive(NumericKey(candidate), NumericKey(last), NumericKey(v));
            }
          }
        }
        last
      else
        candidate
  }

  /** `get_forge_versions` with the intended latest version: the numerically newest offered one. */
  function IntendedForgeVersions(html: string, matches: seq<string>, recommended: seq<string>): (data: Raises<ForgeVersions>)
    ensures html != [] ==> (data.Err? <==> matches == [])
    ensures html != [] && data.Ok? ==>
      && data.value.latest.Some?
      && data.value.latest.value in matches
      && forall m :: m in matches ==> !KeyLess(NumericKey(data.value.latest.value), NumericKey(m))
  {
    if html == [] then Ok(ForgeVersions([], None, None))
    else if matches == [] then Err(IndexError)
    else
      var versions := Offered(matches);
      var newest := NewestByNumber(versions);
      OfferedAreSortedMatches(matches, newest);
      assert forall m :: m in matches ==> m in versions by {
        forall m | m in matches
          ensures m in versions
        {
          OfferedAreSortedMatches(matches, m);
        }
      }
      Ok(ForgeVersions(versions, Some(newest), if recommended == [] then None else Some(recommended[0])))
  }

  lemma KeyOf47(x: nat)
    requires x <= 99
    ensures NumericKey(Dotted(47, 2) + "." + NatToString(x)) == [47, 2, x]
  {
    SplitDottedPatch(47, 2, x);
    CompactMapPrinted3(47, 2, x);
  }

  lemma ExampleKeys()
    ensures NumericKey("47.2.20") == [47, 2, 20]
    ensures NumericKey("47.2.3") == [47, 2, 3]
  {
    assert NatToString(47) == "47";
    assert Dotted(47, 2) + "." + NatToString(20) == "47.2.20";
    assert Dotted(47, 2) + "." + NatToString(3) == "47.2.3";
    KeyOf47(20);
    KeyOf47(3);
  }

  lemma ExampleOffered()
    ensures Offered(["47.2.20", "47.2.3"]) == ["47.2.20", "47.2.3"]
  {
    var s := ["47.2.20", "47.2.3"];
    assert StrLess("47.2.20", "47.2.3");
    assert s[1..] == ["47.2.3"];
    assert SortStrings(["47.2.3"]) == ["47.2.3"];
    assert SortStrings(s) == s;
    assert s[..1] == ["47.2.20"];
    assert Dedupe(["47.2.20"]) == ["47.2.20"];
  }

  /**
    Forge `47.2.20` is newer than `47.2.3`, but sorts before it as a
    string, so the older version is taken as the latest.
  */
  lemma StringOrderPicksOlderVersion()
    ensures LatestAsWritten(["47.2.20", "47.2.3"]) == "47.2.3"
    ensures KeyLess(NumericKey("47.2.3"), NumericKey("47.2.20"))
    ensures NewestByNumber(["47.2.20", "47.2.3"]) == "47.2.20"
  {
    ExampleKeys();
    ExampleLatestAsWritten();
    ExampleNewest();
  }

  lemma ExampleLatestAsWritten()
    ensures LatestAsWritten(["47.2.20", "47.2.3"]) == "47.2.3"
  {
    ExampleOffered();
  }

  lemma ExampleNewest()
    ensures NewestByNumber(["47.2.20", "47.2.3"]) == "47.2.20"
  {
    ExampleKeys();
    assert ["47.2.20", "47.2.3"][..1] == ["47.2.20"];
  }
}
