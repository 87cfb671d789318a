/**
  The older runtime descriptor and provider shape, written against
  `MinecraftVersion`, with the same default `latestVersion`: sort descending
  and take the first.
*/
module DownloaderProtocol {
  import opened Wrappers
  import opened Exceptions
  import opened MinecraftVersionType
  import opened JavaVersion
  import opened Text

  datatype Runtime = Runtime(
    gameType: MinecraftType,
    version: MinecraftVersion,
    url: string,
    name: string,
    executableName: string,
    installCommands: seq<string>,
    startCommand: string,
    mappedVolumes: seq<string>,
    javaVersion: Option<JavaVersion>)

  /**
    The lists `sorted(by: >)` orders: every version other than `latest` has
    at least two numeric components, and `<` as written evaluates on every
    two positions of the list. A shorter version is incomparable with all
    but `latest`, which breaks the sort's order; a pair that traps stops it.
  */
  predicate Sortable(versions: seq<MinecraftVersion>) {
    && (forall i :: 0 <= i < |versions| && versions[i] != MinecraftVersionType.Latest ==> |Components(versions[i])| >= 2)
    && (forall i, j :: 0 <= i < |versions| && 0 <= j < |versions| && i != j ==>
          LessAsWrittenDefined(versions[i], versions[j]))
  }

  /**
    A greatest version of a sortable, non-empty list: the first element of
    the list sorted with `>`, as a left fold that replaces its candidate only
    by a strictly greater version. On such a list the completed `<` is the
    written one.
  */
  function Greatest(versions: seq<MinecraftVersion>): (top: MinecraftVersion)
    requires versions != [] && Sortable(versions)
    ensures top in versions
    ensures forall v :: v in versions ==> !Less(top, v)
  {
    if |versions| == 1 then
      LessIrreflexive(versions[0]);
      versions[0]
    else
      var init := versions[..|versions| - 1];
      var last := versions[|versions| - 1];
      assert versions == init + [last];
      assert Sortable(init) by {
        forall i | 0 <= i < |init|
          ensures init[i] == versions[i]
        {
        }
      }
      var candidate := Greatest(init);
      if Less(candidate, last) then
        GreaterThanAll(init, candidate, last);
        LessIrreflexive(last);
        last
      else
        candidate
  }

  /**
    On a sortable list the completed `<` is the written one and a strict
    weak order: being incomparable is transitive, so whichever order the
    sort settles on starts with a version no listed version is above.
  */
  lemma IncomparableTransitive(versions: seq<MinecraftVersion>, i: nat, j: nat, k: nat)
    requires Sortable(versions) && i < |versions| && j < |versions| && k < |versions|
    requires !Less(versions[i], versions[j]) && !Less(versions[j], versions[i])
    requires !Less(versions[j], versions[k]) && !Less(versions[k], versions[j])
    ensures !Less(versions[i], versions[k]) && !Less(versions[k], versions[i])
    ensures i != k ==> Less(versions[i], versions[k]) == LessAsWritten(versions[i], versions[k])
  {
    if i != j && j != k && i != k {
      assert LessAsWrittenDefined(versions[i], versions[j]) && LessAsWrittenDefined(versions[j], versions[k]);
      assert LessAsWrittenDefined(versions[i], versions[k]) && LessAsWrittenDefined(versions[k], versions[i]);
    }
  }

  /**
    A bare major version between two releases leaves the list unsortable:
    `a` is incomparable with both `a.b` and `a.(b+1)`, which are ordered,
    so a sort that meets them in that order may return `a.b` first.
  */
  lemma {:induction false} BareMajorBreaksOrder(a: nat, b: nat)
    requires a <= UIntMax && b < UIntMax
    ensures var versions := [MinecraftVersion(Dotted(a, b)), MinecraftVersion(NatToString(a)), MinecraftVersion(Dotted(a, b + 1))];
      && !Sortable(versions)
      && !Less(versions[0], versions[1]) && !Less(versions[1], versions[0])
      && !Less(versions[1], versions[2]) && !Less(versions[2], versions[1])
      && Less(versions[0], versions[2])
  {
    var bare := MinecraftVersion(NatToString(a));
    ComponentsOfDotted(a, b);
    ComponentsOfDotted(a, b + 1);
    DigitsHaveNoSeparator(NatToString(a), '.');
    SplitSingle(NatToString(a), '.');
    ParseNatToString(a);
    CompactMapCons(NatToString(a), []);
    assert bare != MinecraftVersionType.Latest by {
      assert IsDigit(NatToString(a)[0]);
    }
    assert Components(bare) == [a];
    var versions := [MinecraftVersion(Dotted(a, b)), bare, MinecraftVersion(Dotted(a, b + 1))];
    assert versions[1] != MinecraftVersionType.Latest && |Components(versions[1])| < 2;
    assert MinecraftVersion(Dotted(a, b)) != MinecraftVersionType.Latest by {
      DottedIsNotWord(a, b, "latest");
    }
    assert MinecraftVersion(Dotted(a, b + 1)) != MinecraftVersionType.Latest by {
      DottedIsNotWord(a, b + 1, "latest");
    }
  }

  /** Anything above a greatest element of a list is above the whole list. */
  lemma GreaterThanAll(init: seq<MinecraftVersion>, candidate: MinecraftVersion, last: MinecraftVersion)
    requires forall v :: v in init ==> !Less(candidate, v)
    requires Less(candidate, last)
    ensures forall v :: v in init ==> !Less(last, v)
  {
    forall v | v in init
      ensures !Less(last, v)
    {
      if Less(last, v) {
        LessTransitive(candidate, last, v);
      }
    }
  }

  /**
    The default `latestVersion`: errors pass through, an empty list is a
    `serverDownload` error, otherwise a listed version no listed version is
    above; when `latest` itself is listed, that is the answer.
  */
  function LatestVersion(available: Outcome<seq<MinecraftVersion>>): (latest: Outcome<MinecraftVersion>)
    requires available.Ok? ==> Sortable(available.value)
    ensures available.Err? ==> latest == Err(available.error)
    ensures available.Ok? ==> (latest.Err? <==> available.value == [])
    ensures available.Ok? && available.value == [] ==> latest == Err(ServerDownload(NotFound))
    ensures latest.Ok? ==> latest.value in available.value
    ensures latest.Ok? ==> forall v :: v in available.value ==> !Less(latest.value, v)
    ensures available.Ok? && MinecraftVersionType.Latest in available.value ==> latest == Ok(MinecraftVersionType.Latest)
  {
    var versions :- available;
    if versions == [] then Err(ServerDownload(NotFound))
    else
      var top := Greatest(versions);
      assert MinecraftVersionType.Latest in versions ==> top == MinecraftVersionType.Latest by {
        if top != MinecraftVersionType.Latest {
          LatestIsTop(top);
        }
      }
      Ok(top)
  }
}
