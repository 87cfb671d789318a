/**
  The `build` command (`BuildCommand`): it checks its options, turns the
  requested version into a list of versions to build, builds them newest
  last, optionally pushes the images that are not already on the registry,
  and optionally removes them again.

  Docker, the registry and the runtime providers are inputs: what
  `availableVersions` and `latestVersion` answered, what building a version
  produced (`None` when the build threw), whether the login succeeded, the
  repositories and tags the registry lists, and whether each removal
  succeeded.
*/
module BuildCommand {
  import opened Wrappers
  import opened Exceptions
  import opened Text
  import opened Seqs
  import opened MinecraftVersionType

  /**
    A built image: its Docker tag is `name:tag`, where `name` is the image
    name (`rdall96/minecraft-server`) and `tag` the version tag (`1.20.1`).
  */
  datatype Image = Image(name: string, tag: string)

  /** The command's options, those of its option groups included. */
  datatype Command = Command(
    name: string,
    gameType: MinecraftType,
    version: MinecraftVersion,
    username: Option<string>,
    password: Option<string>,
    push: bool,
    force: bool,
    clean: bool)

  const DefaultImageName: string := "rdall96/minecraft-server"

  /** Why `validate()` refuses the options. */
  datatype ValidationFailure = EmptyImageName | InvalidImageName | MissingCredentials

  predicate HasCredential(c: Option<string>) {
    c.Some? && c.value != []
  }

  /**
    `validate()`: a non-empty image name of at most two `/`-separated
    segments (empty segments do not count), and credentials whenever the
    images are to be pushed.
  */
  function Validate(c: Command): (failure: Option<ValidationFailure>)
    ensures failure == Some(EmptyImageName) <==> c.name == []
    ensures failure == Some(InvalidImageName) <==> c.name != [] && |Split(c.name, '/')| > 2
    ensures failure == Some(MissingCredentials) <==>
      c.name != [] && |Split(c.name, '/')| <= 2 && c.push && !(HasCredential(c.username) && HasCredential(c.password))
    ensures failure.None? <==>
      c.name != [] && |Split(c.name, '/')| <= 2 && (c.push ==> HasCredential(c.username) && HasCredential(c.password))
  {
    if c.name == [] then Some(EmptyImageName)
    else if |Split(c.name, '/')| > 2 then Some(InvalidImageName)
    else if c.push && !(HasCredential(c.username) && HasCredential(c.password)) then Some(MissingCredentials)
    else None
  }

  // ---------------------------------------------------------------------------
  // The build plan

  /** The versions to build, and whether the first of them may be tagged `latest`. */
  datatype Plan = Plan(versions: seq<MinecraftVersion>, hasLatestImage: bool)

  /**
    `all` builds every available version and `latest` the latest one; a
    failed lookup leaves nothing to build. Any other version is built as
    asked, and never tagged `latest`. Nothing to build is an error.
  */
  function MakePlan(requested: MinecraftVersion, available: Outcome<seq<MinecraftVersion>>, latest: Outcome<MinecraftVersion>)
    : (plan: Outcome<Plan>)
    ensures plan.Err? ==> plan.error == InvalidMinecraftVersion
    ensures plan.Ok? ==> plan.value.versions != []
    ensures requested == All ==>
      && (plan.Ok? <==> available.Ok? && available.value != [])
      && (plan.Ok? ==> plan.value == Plan(available.value, true))
    ensures requested == MinecraftVersionType.Latest ==>
      && (plan.Ok? <==> latest.Ok?)
      && (plan.Ok? ==> plan.value == Plan([latest.value], true))
    ensures requested != All && requested != MinecraftVersionType.Latest ==> plan == Ok(Plan([requested], false))
  {
    var candidate :=
      if requested == All then Plan(if available.Ok? then available.value else [], true)
      else if requested == MinecraftVersionType.Latest then
        (if latest.Ok? then Plan([latest.value], true) else Plan([], false))
      else Plan([requested], false);
    if candidate.versions == [] then Err(InvalidMinecraftVersion) else Ok(candidate)
  }

  /** A version is tagged `latest` when the plan tracks the latest image and the version is the plan's first. */
  predicate TagLatest(plan: Plan, v: MinecraftVersion) {
    plan.hasLatestImage && plan.versions != [] && v == plan.versions[0]
  }

  /**
    `build(version:with:tagLatest:)`: the images the builder produced; a
    build that throws, or that produces no image, contributes none.
  */
  function BuildOne(plan: Plan, build: (MinecraftVersion, bool) -> Option<seq<Image>>, v: MinecraftVersion): seq<Image> {
    match build(v, TagLatest(plan, v))
    case None => []
    case Some(images) => images
  }

  function BuildsOf(plan: Plan, build: (MinecraftVersion, bool) -> Option<seq<Image>>): MinecraftVersion -> seq<Image> {
    v => BuildOne(plan, build, v)
  }

  /** The build loop: the planned versions in reverse order, the images of each appended. */
  method BuildAll(plan: Plan, build: (MinecraftVersion, bool) -> Option<seq<Image>>) returns (built: seq<Image>)
    ensures built == FlatMap(Reversed(plan.versions), BuildsOf(plan, build))
  {
    var order := Reversed(plan.versions);
    built := [];
    for i := 0 to |order|
      invariant built == FlatMap(order[..i], BuildsOf(plan, build))
    {
      assert order[..i + 1] == order[..i] + [order[i]];
      FlatMapSnoc(order[..i], order[i], BuildsOf(plan, build));
      var images := BuildOne(plan, build, order[i]);
      built := built + images;
    }
    assert order[..|order|] == order;
  }

  // ---------------------------------------------------------------------------
  // Pushing

  /**
    The repository namespace and name: the first and the last `/`-separated
    segment. A name with no segment at all has no namespace (and so no name
    either, which is why the second check never fires).
  */
  function RepositoryOf(name: string): (repo: Outcome<(string, string)>)
    ensures repo.Err? <==> Split(name, '/') == []
    ensures repo.Err? ==> repo.error == MissingRepositoryNamespace
  {
    var segments := Split(name, '/');
    if segments == [] then Err(MissingRepositoryNamespace)
    else Ok((segments[0], segments[|segments| - 1]))
  }

  /**
    The push loop's test as written: with `force` every image is pushed;
    otherwise an image is skipped when a remote tag carries the image's
    NAME, not its version tag (see `PushesExistingTagAgain`).
  */
  predicate ShouldPush(existingTags: seq<string>, force: bool, image: Image) {
    force || image.name !in existingTags
  }

  function PushedBy(existingTags: seq<string>, force: bool): Image -> bool {
    image => ShouldPush(existingTags, force, image)
  }

  /** The push loop: the images a push is attempted for, in order. A failed push is only logged. */
  method PushList(images: seq<Image>, existingTags: seq<string>, force: bool) returns (pushed: seq<Image>)
    ensures pushed == Filter(images, PushedBy(existingTags, force))
  {
    pushed := [];
    for i := 0 to |images|
      invariant pushed == Filter(images[..i], PushedBy(existingTags, force))
    {
      assert images[..i + 1] == images[..i] + [images[i]];
      FilterSnoc(images[..i], images[i], PushedBy(existingTags, force));
      var image := images[i];
      if force {
        pushed := pushed + [image];
        continue;
      }
      if image.name in existingTags {
        continue;
      }
      pushed := pushed + [image];
    }
    assert images[..|images|] == images;
  }

  /**
    The registry's answer for the command's repository is there whenever
    the listing is: the lookup force-unwraps it and traps otherwise.
  */
  predicate RepositoryListed(name: string, repositories: Outcome<seq<string>>) {
    RepositoryOf(name).Ok? && repositories.Ok? ==> RepositoryOf(name).value.1 in repositories.value
  }

  /**
    `push(images:)`: find the repository, read its existing tags, then run
    the push loop. `repositories` lists the repository names of the
    namespace and `existingTags` the tags of the repository found.
  */
  method Push(name: string, images: seq<Image>, force: bool, repositories: Outcome<seq<string>>, existingTags: Outcome<seq<string>>)
    returns (pushed: Outcome<seq<Image>>)
    requires RepositoryListed(name, repositories)
    ensures pushed.Ok? <==> RepositoryOf(name).Ok? && repositories.Ok? && existingTags.Ok?
    ensures pushed.Ok? ==> pushed.value == Filter(images, PushedBy(existingTags.value, force))
    ensures RepositoryOf(name).Err? ==> pushed == Err(MissingRepositoryNamespace)
  {
    var repo := RepositoryOf(name);
    if repo.Err? {
      return Err(repo.error);
    }
    if repositories.Err? {
      return Err(repositories.error);
    }
    if existingTags.Err? {
      return Err(existingTags.error);
    }
    var list := PushList(images, existingTags.value, force);
    pushed := Ok(list);
  }

  // ---------------------------------------------------------------------------
  // Cleaning

  /**
    `clean(images:)`: remove the images one by one and count them; the first
    removal that fails aborts with the Docker error.
  */
  method Clean(images: seq<Image>, removes: Image -> bool) returns (removed: Outcome<nat>)
    ensures removed.Ok? <==> forall i :: 0 <= i < |images| ==> removes(images[i])
    ensures removed.Ok? ==> removed.value == |images|
    ensures removed.Err? ==> removed.error == DockerError
  {
    var count: nat := 0;
    for i := 0 to |images|
      invariant count == i
      invariant forall j :: 0 <= j < i ==> removes(images[j])
    {
      if !removes(images[i]) {
        return Err(DockerError);
      }
      count := count + 1;
    }
    removed := Ok(count);
  }

  // ---------------------------------------------------------------------------
  // The command

  /** What a successful run did. */
  datatype Report = Report(built: seq<Image>, pushed: seq<Image>, removed: nat)

  /** The images built from a plan: the plan's versions oldest first, each version's images in turn. */
  function PlannedImages(plan: Plan, build: (MinecraftVersion, bool) -> Option<seq<Image>>): seq<Image> {
    FlatMap(Reversed(plan.versions), BuildsOf(plan, build))
  }

  /** The push step, when asked for, finds the namespace, the registry listing and the existing tags. */
  predicate PushReachesRegistry(c: Command, repositories: Outcome<seq<string>>, existingTags: Outcome<seq<string>>) {
    c.push ==> RepositoryOf(c.name).Ok? && repositories.Ok? && existingTags.Ok?
  }

  /** The clean step, when asked for, removes every built image. */
  predicate CleanRemovesAll(c: Command, images: seq<Image>, removes: Image -> bool) {
    c.clean ==> forall i :: 0 <= i < |images| ==> removes(images[i])
  }

  /**
    `run()`: log in first when pushing, plan, build, push, clean. Any error
    while pushing becomes `pushFailed`, any while cleaning `cleanupFailed`.
    The options have passed `validate()` before `run()` is called.
  */
  method Run(
    c: Command,
    loggedIn: bool,
    available: Outcome<seq<MinecraftVersion>>,
    latest: Outcome<MinecraftVersion>,
    build: (MinecraftVersion, bool) -> Option<seq<Image>>,
    repositories: Outcome<seq<string>>,
    existingTags: Outcome<seq<string>>,
    removes: Image -> bool)
    returns (r: Outcome<Report>)
    requires Validate(c).None?
    requires c.push ==> RepositoryListed(c.name, repositories)
    ensures c.push && !loggedIn ==> r == Err(LoginFailed)
    ensures r == Err(InvalidMinecraftVersion) <==> (c.push ==> loggedIn) && MakePlan(c.version, available, latest).Err?
    ensures r.Ok? ==>
      var plan := MakePlan(c.version, available, latest);
      && plan.Ok?
      && r.value.built == PlannedImages(plan.value, build)
      && (c.push ==> existingTags.Ok? && r.value.pushed == Filter(r.value.built, PushedBy(existingTags.value, c.force)))
      && (!c.push ==> r.value.pushed == [])
      && r.value.removed == (if c.clean then |r.value.built| else 0)
    ensures r.Err? ==> r.error in {LoginFailed, InvalidMinecraftVersion, PushFailed, CleanupFailed}
    ensures r == Err(LoginFailed) <==> c.push && !loggedIn
    ensures r == Err(PushFailed) <==>
      (c.push ==> loggedIn) && MakePlan(c.version, available, latest).Ok? &&
      !PushReachesRegistry(c, repositories, existingTags)
    ensures r == Err(CleanupFailed) <==>
      (c.push ==> loggedIn) && MakePlan(c.version, available, latest).Ok? &&
      PushReachesRegistry(c, repositories, existingTags) &&
      !CleanRemovesAll(c, PlannedImages(MakePlan(c.version, available, latest).value, build), removes)
    ensures r.Ok? <==>
      (c.push ==> loggedIn) && MakePlan(c.version, available, latest).Ok? &&
      PushReachesRegistry(c, repositories, existingTags) &&
      CleanRemovesAll(c, PlannedImages(MakePlan(c.version, available, latest).value, build), removes)
  {
    if c.push && !loggedIn {
      return Err(LoginFailed);
    }
    var plan := MakePlan(c.version, available, latest);
    if plan.Err? {
      return Err(plan.error);
    }
    var built := BuildAll(plan.value, build);
    var pushed: seq<Image> := [];
    if c.push {
      var attempt := Push(c.name, built, c.force, repositories, existingTags);
      if attempt.Err? {
        return Err(PushFailed);
      }
      pushed := attempt.value;
    }
    var removed: nat := 0;
    if c.clean {
      var cleaned := Clean(built, removes);
      if cleaned.Err? {
        return Err(CleanupFailed);
      }
      removed := cleaned.value;
    }
    r := Ok(Report(built, pushed, removed));
  }

  // ---------------------------------------------------------------------------
  // Facts

  /** `split` drops empty segments, so a doubled `/` still names a valid image. */
  lemma DoubleSlashAccepted(namespace: string, repository: string, c: Command)
    requires namespace != [] && '/' !in namespace && repository != [] && '/' !in repository
    requires c.name == namespace + "//" + repository && !c.push
    ensures Validate(c).None?
    ensures RepositoryOf(c.name) == Ok((namespace, repository))
  {
    assert c.name == namespace + ['/'] + ("/" + repository);
    SplitAround(namespace, "/" + repository, '/');
    SplitSingle(namespace, '/');
    SplitSingle(repository, '/');
    assert ("/" + repository)[1..] == repository;
  }

  /** A name without `/` is its own namespace and repository. */
  lemma BareNameIsNamespaceAndRepository(name: string)
    requires name != [] && '/' !in name
    ensures RepositoryOf(name) == Ok((name, name))
  {
    SplitSingle(name, '/');
  }

  /** A name of slashes alone passes validation but names no repository, so pushing it fails. */
  lemma SlashesOnlyNameHasNoNamespace(c: Command)
    requires c.name == "/" && !c.push
    ensures Validate(c).None?
    ensures RepositoryOf(c.name) == Err(MissingRepositoryNamespace)
  {
    assert c.name[0] == '/' && c.name[1..] == [];
    assert Split(c.name, '/') == Split([], '/');
  }

  /** Only the plan's first version can be tagged, and only for `all` and `latest`. */
  lemma OnlyFirstTagged(requested: MinecraftVersion, available: Outcome<seq<MinecraftVersion>>, latest: Outcome<MinecraftVersion>, v: MinecraftVersion)
    requires MakePlan(requested, available, latest).Ok?
    requires TagLatest(MakePlan(requested, available, latest).value, v)
    ensures requested == All || requested == MinecraftVersionType.Latest
    ensures v == MakePlan(requested, available, latest).value.versions[0]
  {
  }

  /** The first planned version (the one tagged `latest`) is built last, so its images close the list. */
  lemma {:induction false} FirstPlannedBuiltLast(plan: Plan, build: (MinecraftVersion, bool) -> Option<seq<Image>>)
    requires plan.versions != []
    ensures FlatMap(Reversed(plan.versions), BuildsOf(plan, build)) ==
      FlatMap(Reversed(plan.versions[1..]), BuildsOf(plan, build)) + BuildOne(plan, build, plan.versions[0])
  {
    var vs := plan.versions;
    assert Reversed(vs) == Reversed(vs[1..]) + [vs[0]];
    FlatMapSnoc(Reversed(vs[1..]), vs[0], BuildsOf(plan, build));
  }

  /** Every built image comes from a planned version; a failed build contributes nothing. */
  lemma {:induction false} BuiltImagesFromPlan(plan: Plan, build: (MinecraftVersion, bool) -> Option<seq<Image>>, image: Image)
    ensures image in FlatMap(Reversed(plan.versions), BuildsOf(plan, build)) <==>
      exists v :: v in plan.versions && build(v, TagLatest(plan, v)).Some? && image in build(v, TagLatest(plan, v)).value
  {
    var order := Reversed(plan.versions);
    FlatMapMembers(order, BuildsOf(plan, build), image);
    assert forall v :: v in order <==> v in plan.versions by {
      forall v | v in plan.versions
        ensures v in order
      {
        var k :| 0 <= k < |plan.versions| && plan.versions[k] == v;
        assert order[|plan.versions| - 1 - k] == v;
      }
    }
  }

  /** With `force` every built image is pushed. */
  lemma {:induction false} ForcePushesEverything(images: seq<Image>, existingTags: seq<string>)
    ensures Filter(images, PushedBy(existingTags, true)) == images
  {
    if images != [] {
      ForcePushesEverything(images[1..], existingTags);
    }
  }

  /** Without `force`, the loop as written skips an image exactly when a remote tag equals the image's name. */
  lemma SkipsOnlyOnImageName(images: seq<Image>, existingTags: seq<string>, image: Image)
    ensures image in Filter(images, PushedBy(existingTags, false)) <==> image in images && image.name !in existingTags
  {
    FilterMembers(images, PushedBy(existingTags, false), image);
  }

  /** A version already on the registry is pushed again: its version tag is never compared. */
  lemma PushesExistingTagAgain()
    ensures var image := Image(DefaultImageName, "1.20.1");
      Filter([image], PushedBy(["1.20.1"], false)) == [image]
  {
    var image := Image(DefaultImageName, "1.20.1");
    assert DefaultImageName != "1.20.1" by { assert DefaultImageName[0] != "1.20.1"[0]; }
    assert ShouldPush(["1.20.1"], false, image);
  }

  /** The test the loop evidently intends: compare the image's version tag with the remote tags. */
  predicate ShouldPushIntended(existingTags: seq<string>, force: bool, image: Image) {
    force || image.tag !in existingTags
  }

  function IntendedPushedBy(existingTags: seq<string>, force: bool): Image -> bool {
    image => ShouldPushIntended(existingTags, force, image)
  }

  /** The corrected push list: in order, the images whose version tag the repository does not list yet, or all of them when forced. */
  function IntendedPushList(images: seq<Image>, existingTags: seq<string>, force: bool): (pushed: seq<Image>)
    ensures forall image :: image in pushed <==> image in images && (force || image.tag !in existingTags)
  {
    var pushed := Filter(images, IntendedPushedBy(existingTags, force));
    forall image
      ensures image in pushed <==> image in images && (force || image.tag !in existingTags)
    {
      FilterMembers(images, IntendedPushedBy(existingTags, force), image);
    }
    pushed
  }

  /** With `force` the corrected list is every built image, in order. */
  lemma {:induction false} IntendedForcePushesEverything(images: seq<Image>, existingTags: seq<string>)
    ensures IntendedPushList(images, existingTags, true) == images
  {
    if images != [] {
      IntendedForcePushesEverything(images[1..], existingTags);
    }
  }
}
