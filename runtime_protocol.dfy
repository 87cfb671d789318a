/**
  What every runtime provider hands back (`MinecraftRuntime`), and the
  default way a provider picks its latest version: sort the available
  versions in descending order and take the first.
*/
module RuntimesProtocol {
  import opened Wrappers
  import opened Exceptions
  import opened Minecraft
  import opened JavaVersion
  import opened Text

  /** A resolved server runtime: where to download it and how to install and start it. */
  datatype Runtime = Runtime(
    gameType: GameType,
    version: GameVersion,
    url: string,
    name: string,
    executableName: string,
    installCommands: seq<string>,
    startCommand: string,
    mappedVolumes: seq<string>,
    javaVersion: Option<JavaVersion>)

  /**
    Every two positions of the list can be compared without trapping. The
    sort never compares an element with itself, so a version need not be
    comparable with itself unless it is listed twice.
  */
  predicate Comparable(versions: seq<GameVersion>) {
    forall i, j :: 0 <= i < |versions| && 0 <= j < |versions| && i != j ==> LessDefined(versions[i], versions[j])
  }

  /**
    A greatest version of a non-empty list: the first element of the list
    sorted with `>`, computed as a left fold that replaces its candidate
    only by a strictly greater version. Every other listed version compares
    with it and is not above it.
  */
  function Greatest(versions: seq<GameVersion>): (top: GameVersion)
    requires versions != [] && Comparable(versions)
    ensures top in versions
    ensures forall v :: v in versions && v != top ==> LessDefined(top, v) && !Less(top, v)
  {
    if |versions| == 1 then
      versions[0]
    else
      var init := versions[..|versions| - 1];
      var last := versions[|versions| - 1];
      assert versions == init + [last];
      assert Comparable(init) by {
        forall i | 0 <= i < |init|
          ensures init[i] == versions[i]
        {
        }
      }
      var candidate := Greatest(init);
      var k :| 0 <= k < |init| && init[k] == candidate;
      assert versions[k] == candidate && LessDefined(candidate, last);
      if Less(candidate, last) then
        GreaterThanAll(versions, candidate);
        last
      else
        assert forall v :: v in versions ==> v in init || v == last;
        candidate
  }

  /** Anything above a greatest element of the list but the last is above the whole list. */
  lemma GreaterThanAll(versions: seq<GameVersion>, candidate: GameVersion)
    requires |versions| >= 2 && Comparable(versions)
    requires candidate in versions[..|versions| - 1]
    requires forall v :: v in versions[..|versions| - 1] && v != candidate ==> LessDefined(candidate, v) && !Less(candidate, v)
    requires LessDefined(candidate, versions[|versions| - 1]) && Less(candidate, versions[|versions| - 1])
    ensures forall v :: v in versions && v != versions[|versions| - 1] ==>
      LessDefined(versions[|versions| - 1], v) && !Less(versions[|versions| - 1], v)
  {
    var n := |versions| - 1;
    var last := versions[n];
    forall v | v in versions && v != last
      ensures LessDefined(last, v) && !Less(last, v)
    {
      var i :| 0 <= i < |versions| && versions[i] == v;
      assert i != n;
      assert LessDefined(last, v);
      assert v in versions[..n] by {
        assert versions[..n][i] == v;
      }
      if v == candidate {
        LessAsymmetric(candidate, last);
      } else if Less(last, v) {
        LessTransitive(candidate, last, v);
      }
    }
  }

  /**
    A bare major version is comparable with a release of another major
    version, though not with itself: such a list is still sorted.
  */
  lemma {:induction false} BareMajorComparable(a: nat, b: nat, c: nat)
    requires a <= UIntMax && b <= UIntMax && c <= UIntMax && a != b
    ensures Comparable([GameVersion(NatToString(a), None), GameVersion(Dotted(b, c), None)])
    ensures !LessDefined(GameVersion(NatToString(a), None), GameVersion(NatToString(a), None))
  {
    DigitsHaveNoSeparator(NatToString(a), '.');
    SplitSingle(NatToString(a), '.');
    ParseNatToString(a);
    CompactMapCons(NatToString(a), []);
    assert NatToString(a) != "latest" by {
      assert IsDigit(NatToString(a)[0]);
    }
    assert VersionComponents(NatToString(a)) == [a];
    PatchDefaultsToZero(b, c);
    DottedIsNotWord(b, c, "latest");
  }

  /**
    The default `latestVersion`: errors from `availableVersions` pass through,
    an empty list is a `serverDownload` error, and otherwise the result is a
    listed version that no listed version is above.
  */
  function LatestVersion(available: Outcome<seq<GameVersion>>): (latest: Outcome<GameVersion>)
    requires available.Ok? ==> Comparable(available.value)
    ensures available.Err? ==> latest == Err(available.error)
    ensures available.Ok? ==> (latest.Err? <==> available.value == [])
    ensures available.Ok? && available.value == [] ==> latest == Err(ServerDownload(NotFound))
    ensures latest.Ok? ==> latest.value in available.value
    ensures latest.Ok? ==>
      forall v :: v in available.value && v != latest.value ==> LessDefined(latest.value, v) && !Less(latest.value, v)
  {
    var versions :- available;
    if versions == [] then Err(ServerDownload(NotFound)) else Ok(Greatest(versions))
  }
}
