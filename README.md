# minecraft-docker, modelled in Dafny

minecraft-docker builds Docker images that run a Minecraft Java server.
Given a game type (vanilla, Fabric, Forge, NeoForged, Quilt) and a version
(a release such as `1.20.1`, `latest`, `all`, or `<minecraft>:<mod loader>`),
it works in four steps:

1. A runtime provider asks the type's metadata service which versions exist.
2. It picks the installer or loader for the requested version.
3. It describes the runtime: download URL, install commands, start command,
   volumes and Java version.
4. The builder turns that runtime into a Dockerfile and a start script. The
   `build` command then builds, tags, pushes and removes the images.

An older generation of the code does the same from a plain Minecraft version
string (`MinecraftVersion`, `MinecraftType`). The legacy Python downloaders
fetch server jars directly.

This project models each of those core files as one Dafny module:

- `minecraft.dfy` (`Minecraft`) covers `GameVersion` and `GameType`: version
  components, the version order, command-line parsing, descriptions and tags.
- `minecraft_version_type.dfy` (`MinecraftVersionType`) covers the older
  `MinecraftVersion` and its order.
- `java_version.dfy`, `defaults.dfy`: the Java versions and the fixed image
  layout.
- `network.dfy` (`Network`): one HTTP exchange, as seen by a provider, and the
  two orders in which providers check it.
- `runtime_protocol.dfy`, `downloader_protocol.dfy`: `latestVersion` of both
  provider protocols.
- `vanilla_runtime.dfy`, `fabric_runtime.dfy`, `forge_runtime.dfy`,
  `neoforged_runtime.dfy`, `quilt_runtime.dfy`: the current providers.
  `forge_page.dfy` holds the link selection that the two Forge page parsers
  share.
- `fabric_runtime_provider.dfy`, `forge_runtime_provider.dfy`: the older
  `MinecraftVersion`-based providers.
- `builder.dfy` (`MinecraftBuilder`): Dockerfile, start script, Java fallback,
  labels and the `latest` tag.
- `game_version_options.dfy`, `build_command.dfy`: option validation and the
  `build` command (plan, build order, push, clean).
- `py_*.dfy`: the Python downloaders.
  - `py_dict.dfy` models a Python dict as an insertion-ordered association
    list.
  - `py_manifest.dfy` holds the release table that the vanilla and Java-server
    downloaders both build.

Network replies, parsed HTML and JSON, Docker results and the registry's
answers are all inputs:

- a `Response<T>` is a transport failure, a reply that is not HTTP, or an
  HTTP status with a payload that is `None` when decoding fails;
- a provider that fetches one URL per release takes a function from URL (or
  release) to reply.

Errors are `Outcome<T>`, a `Result` over `MinecraftDockerError`. The message
of a `serverDownload` error is reduced to the reason it reports. A Swift
operation that would trap becomes a precondition. An operation that throws
becomes an `Err`.

## Model

| member | source | states |
|---|---|---|
| Network.Receive | Sources/Runtimes/FabricRuntime.swift:53-75 | A reply is accepted exactly when it is HTTP 200 and decodes, and then the decoded body is the result. Otherwise, checked in order: a transport failure passes through; a non-HTTP reply, a non-200 status, then undecodable data each give their own `serverDownload` reason. |
| Network.ReceiveDecodedFirst | Sources/Runtimes/NeoForgedRuntime.swift:56-71 | The same acceptance, but the body is decoded as UTF-8 before the status is checked, so an undecodable body reports invalid data whatever the status. |
| Network.ReceiveOrdersAgree | Sources/Runtimes/NeoForgedRuntime.swift:61-66 | The two checking orders give the same result on every reply except one that has an error status and an undecodable body. |
| Minecraft.CompareComponents | Sources/Shared/Minecraft.swift:55-71 | `lessThan` iff some component among the first three is smaller with all earlier ones equal; `greaterThan` symmetrically; `equal` iff the first three components agree. Defined only when Swift's indexing would not trap. |
| Minecraft.CompareComponentsFlip | Sources/Shared/Minecraft.swift:55-71 | Swapping the operands swaps `lessThan` and `greaterThan` and keeps `equal`. |
| Minecraft.CompareSelf | Sources/Shared/Minecraft.swift:55-71 | A version compares with itself without trapping exactly when it has three components, and then it is `equal`. |
| Minecraft.CompareLessTransitive | Sources/Shared/Minecraft.swift:55-71 | `lessThan` is transitive, and the composed comparison never traps. |
| Minecraft.CompareEqualTransitive | Sources/Shared/Minecraft.swift:55-71 | `equal` is transitive. |
| Minecraft.CompareEqualSubstitutes | Sources/Shared/Minecraft.swift:55-71 | Versions that compare `equal` compare the same way, and trap the same way, against any third version. |
| Minecraft.LexicalUnique | Sources/Shared/Minecraft.swift:59-69 | The first differing component is the only one that decides the comparison. |
| Minecraft.NoBelowWhenEqual | Sources/Shared/Minecraft.swift:67-69 | When the first three components agree, neither side is below the other at any position. |
| Minecraft.DefinedByBelow | Sources/Shared/Minecraft.swift:59-69 | A comparison decided at a position does not trap. |
| Minecraft.LessIrreflexive | Sources/Shared/Minecraft.swift:73-85 | No `GameVersion` is below itself. |
| Minecraft.LessAsymmetric | Sources/Shared/Minecraft.swift:73-85 | If `a < b` can be evaluated then so can `b < a`, and at most one of them holds. |
| Minecraft.LessTransitive | Sources/Shared/Minecraft.swift:73-85 | `<` on `GameVersion` is transitive. |
| Minecraft.BelowLatest | Sources/Shared/Minecraft.swift:100-104 | The `latest` sentinel (components `[UInt.max, 0, 0]`) is above every release whose major version is below `UInt.max`, whatever the loaders. |
| Minecraft.PatchDefaultsToZero | Sources/Shared/Minecraft.swift:106-110 | A two-part version gets patch 0, so `a.b` and `a.b.0` compare `equal`. |
| Minecraft.AbsentLoaderIsLatest | Sources/Shared/Minecraft.swift:79-84 | With equal Minecraft versions, a missing mod loader counts as the loader `latest`: neither version is below the other. |
| Minecraft.PinnedLoaderBelowAbsent | Sources/Shared/Minecraft.swift:79-84 | On the same three-part Minecraft version, a pinned numeric mod loader sorts below no mod loader, and no mod loader never sorts below a pinned one; both comparisons evaluate. |
| Minecraft.DescriptionRoundTrip | Sources/Shared/Minecraft.swift:88-97 | Parsing a version's description gives the version back, for versions without `:` in their parts. |
| Minecraft.ArgumentWithLeadingColon | Sources/Shared/Minecraft.swift:88-97 | `:p` parses as Minecraft `p` with loader `p`, because the empty piece is dropped before `version[0]` and `version.last` are read. |
| Minecraft.GameTypeFromRawValue | Sources/Shared/Minecraft.swift:117-122 | A raw value is accepted only for the type it names. |
| Minecraft.GameTypeRawValueRoundTrip | Sources/Shared/Minecraft.swift:117-122 | Each game type is read back from its raw value, and from no other string. |
| Minecraft.LatestTagIdentifiesType | Sources/Shared/Minecraft.swift:140-145 | The type can be recovered from its `latest` tag. |
| Minecraft.LatestTagInjective | Sources/Shared/Minecraft.swift:140-145 | Two types share a `latest` tag only if they are the same type. |
| Minecraft.RuntimeName | Sources/Runtimes/FabricRuntime.swift:170 | A modded runtime's name, and so its image tag, ends with the loader version it installs. |
| Minecraft.RuntimeNameInjective | Sources/Runtimes/ForgeRuntime.swift:138 | For a fixed Minecraft version and type, different loader versions give different runtime names. |
| MinecraftVersionType.ComponentsOfDotted | Sources/Shared/MinecraftVersionType.swift:23-27 | `a.b` has components `[a, b]`. |
| MinecraftVersionType.ComponentsOfDottedPatch | Sources/Shared/MinecraftVersionType.swift:23-27 | `a.b.x` has components `[a, b, x]`. |
| MinecraftVersionType.EqualTwoPartVersionsTrap | Sources/Shared/MinecraftVersionType.swift:58 | The operator as written cannot evaluate `a.b < a.b`: it reads a third component that neither side has. |
| MinecraftVersionType.LessAgreesWhereDefined | Sources/Shared/MinecraftVersionType.swift:34-59 | Wherever the operator as written evaluates, the completed order gives the same answer. |
| MinecraftVersionType.LessIrreflexive | Sources/Shared/MinecraftVersionType.swift:34-59 | No version is below itself. |
| MinecraftVersionType.LessAsymmetric | Sources/Shared/MinecraftVersionType.swift:34-59 | At most one of `a < b` and `b < a` holds. |
| MinecraftVersionType.LessTransitive | Sources/Shared/MinecraftVersionType.swift:34-59 | The order is transitive. |
| MinecraftVersionType.LatestIsTop | Sources/Shared/MinecraftVersionType.swift:38-40 | `latest` is above every other version and below none. |
| MinecraftVersionType.ShortVersionsIncomparable | Sources/Shared/MinecraftVersionType.swift:42-45 | A version with fewer than two numeric components is neither above nor below any other version except `latest`. |
| MinecraftVersionType.MinorReleaseOrder | Sources/Shared/MinecraftVersionType.swift:47-58 | `a.b < a.b.x < a.(b+1)`. |
| JavaVersion.FromRawValue | Sources/Builder/JavaVersion.swift:10-15 | A raw value is accepted only for the Java version that has it. |
| JavaVersion.RawValueRoundTrip | Sources/Builder/JavaVersion.swift:10-15 | Each Java version is read back from its raw value; exactly 7, 8, 11, 16 and 17 are accepted. |
| JavaVersion.PackageNameInjective | Sources/Builder/JavaVersion.swift:18-31 | Each Java version is recovered from its Alpine package name, so different versions install different packages. |
| JavaVersion.HeadlessFromJava11 | Sources/Builder/JavaVersion.swift:18-31 | From Java 11 on the package is the headless JRE; before that it is the full JRE. |
| JavaVersion.DescriptionNamesRawValue | Sources/Builder/JavaVersion.swift:33 | The description is `Java <n>`, and `<n>` parses back to the raw value. |
| Defaults.ServerPropertiesWellFormed | Sources/Builder/Defaults.swift:23-55 | There are 31 server properties; they are distinct, non-empty, lower-case names with dashes. |
| Defaults.Part1Named | Sources/Builder/Defaults.swift:24-31 | The first eight property names are well formed. |
| Defaults.Part2Named | Sources/Builder/Defaults.swift:32-39 | The next eight property names are well formed. |
| Defaults.Part3Named | Sources/Builder/Defaults.swift:40-47 | The next eight property names are well formed. |
| Defaults.Part4Named | Sources/Builder/Defaults.swift:48-54 | The last seven property names are well formed. |
| Defaults.PartsDistinct | Sources/Builder/Defaults.swift:23-55 | No group of property names repeats a name. |
| Defaults.PartsDisjointFromPart4 | Sources/Builder/Defaults.swift:23-55 | No earlier group shares a name with the last group. |
| Defaults.PartsDisjointFromPart3 | Sources/Builder/Defaults.swift:23-55 | The first two groups share no name with the third. |
| Defaults.Part1DisjointFromPart2 | Sources/Builder/Defaults.swift:23-55 | The first two groups share no name. |
| Defaults.ConfigurationsUnderHome | Sources/Builder/Defaults.swift:11-15 | The configurations directory is `/minecraft/configurations`, inside the server's home. |
| RuntimesProtocol.Greatest | Sources/Runtimes/MinecraftRuntime.swift:50-51 | On a list whose every two positions compare without trapping, the version `sorted(by: >).first` picks is one of the versions, and every other version compares with it and is not above it. |
| RuntimesProtocol.BareMajorComparable | Sources/Runtimes/MinecraftRuntime.swift:50 | A list of a bare major version and a release of another major version meets that condition, although the bare version cannot be compared with itself. |
| RuntimesProtocol.GreaterThanAll | Sources/Runtimes/MinecraftRuntime.swift:50 | A version above the current maximum is above all of them. |
| RuntimesProtocol.LatestVersion | Sources/Runtimes/MinecraftRuntime.swift:47-56 | An error from the available versions passes through. No versions means `serverDownload` (not found). Otherwise the result is an available version that every other available version compares with and is not above. |
| DownloaderProtocol.Greatest | Sources/Downloader/MinecraftRuntime.swift:54-55 | On a sortable list (every version but `latest` has two numeric components, and `<` as written evaluates on every two positions), the pick is a listed version that no listed version is above. |
| DownloaderProtocol.IncomparableTransitive | Sources/Downloader/MinecraftRuntime.swift:54 | On a sortable list, `<` agrees with the operator as written and incomparability is transitive, so the order the sort relies on is a strict weak order. |
| DownloaderProtocol.BareMajorBreaksOrder | Sources/Shared/MinecraftVersionType.swift:42-45 | A list `[a.b, a, a.(b+1)]` is not sortable: `a` is incomparable with both neighbours, which are ordered. |
| DownloaderProtocol.GreaterThanAll | Sources/Downloader/MinecraftRuntime.swift:54 | A version above the current maximum is above all of them. |
| DownloaderProtocol.LatestVersion | Sources/Downloader/MinecraftRuntime.swift:51-60 | On a sortable list: errors pass through, an empty list is `serverDownload`, otherwise a listed version that no listed version is above; when `latest` is among the versions it is the one picked. |
| VanillaRuntime.ReleaseVersions | Sources/Runtimes/VanillaRuntime.swift:73-75 | The available versions carry no mod loader and are no more than the manifest entries. |
| VanillaRuntime.ReleaseVersionsMembers | Sources/Runtimes/VanillaRuntime.swift:73-75 | A version is available exactly when the manifest has a release entry with that id. |
| VanillaRuntime.ReleaseVersionsAppend | Sources/Runtimes/VanillaRuntime.swift:73-75 | The filter keeps manifest order: entries appended to the manifest add their releases at the end. |
| VanillaRuntime.FirstWithId | Sources/Runtimes/VanillaRuntime.swift:85-89 | The lookup finds a manifest entry with the requested id, and finds none only when no entry has it. |
| VanillaRuntime.FirstWithIdAt | Sources/Runtimes/VanillaRuntime.swift:85-89 | The first entry with the id is the one used. |
| VanillaRuntime.DownloadTypeFromRawValue | Sources/Runtimes/VanillaRuntime.swift:197-202 | A download key is recognised exactly when it is the raw value of a download type. |
| VanillaRuntime.DecodeVersionInfo | Sources/Runtimes/VanillaRuntime.swift:232-247 | The decoding loop produces the version info that the declarative decoder defines. |
| VanillaRuntime.JavaVersionDefaultsTo8 | Sources/Runtimes/VanillaRuntime.swift:235-240 | Without `javaVersion` in the version info the Java version is 8, which is Java 8. |
| VanillaRuntime.UnknownDownloadIgnored | Sources/Runtimes/VanillaRuntime.swift:241-245 | An unknown download key does not change the decoded info. |
| VanillaRuntime.ServerDownloadKept | Sources/Runtimes/VanillaRuntime.swift:241-245 | The decoded info has a server download exactly when the JSON has `server`, and it is that one. |
| VanillaRuntime.VanillaRuntimeProvider.constructor | Sources/Runtimes/VanillaRuntime.swift:38-42 | A new provider has no cached manifest. |
| VanillaRuntime.VanillaRuntimeProvider.CacheAvailableVersions | Sources/Runtimes/VanillaRuntime.swift:44-64 | The reply is checked like every JSON reply. On success the manifest is cached; on failure the cache is left as it was. |
| VanillaRuntime.VanillaRuntimeProvider.Manifest | Sources/Runtimes/VanillaRuntime.swift:69-71 | A cached manifest is used without fetching; otherwise the manifest is fetched and cached. |
| VanillaRuntime.VanillaRuntimeProvider.AvailableVersions | Sources/Runtimes/VanillaRuntime.swift:66-77 | The releases of the cached or freshly fetched manifest, in manifest order. |
| VanillaRuntime.VanillaRuntimeProvider.Info | Sources/Runtimes/VanillaRuntime.swift:79-109 | A fetch error passes through. A version absent from the manifest is an invalid game version. Otherwise the result is that version's decoded info. |
| VanillaRuntime.InvalidExactlyWhenUnknown | Sources/Runtimes/VanillaRuntime.swift:85-89 | The info lookup reports an invalid game version exactly when the manifest has no entry with the version's id. |
| VanillaRuntime.VanillaRuntimeProvider.Runtime | Sources/Runtimes/VanillaRuntime.swift:111-123 | A kept manifest stays kept; without one, a good fetch is kept and a failed fetch is returned as the run's error with nothing kept; once a manifest is known the runtime is the one built from it (server download, name, Java version). |
| VanillaRuntime.RuntimeFrom | Sources/Runtimes/VanillaRuntime.swift:111-123 | A vanilla runtime is named after its Minecraft version, uses the default volumes and installs in one step. |
| VanillaRuntime.ManifestFetchedOnce | Sources/Runtimes/VanillaRuntime.swift:66-77 | After one good fetch, asking again gives the same versions whatever a second reply would have been. |
| FabricRuntime.FabricLoaders | Sources/Runtimes/FabricRuntime.swift:53-75 | Exactly the decoded loaders whose version has no `+` and that are stable (loader and intermediary), or any loader when unstable ones are allowed. |
| FabricRuntime.LatestFabricLoader | Sources/Runtimes/FabricRuntime.swift:77-84 | The first stable loader, and `serverDownload` (not found) when there is none. |
| FabricRuntime.PinnedFabricLoader | Sources/Runtimes/FabricRuntime.swift:144-152 | The first loader in reply order that is kept (no `+`, unstable allowed) and has exactly the requested version; an invalid game version when there is none, and the reply's own error when it is unusable. |
| FabricRuntime.LatestInstaller | Sources/Runtimes/FabricRuntime.swift:86-107 | The first stable installer (any installer when unstable ones are allowed), and `serverDownload` (invalid data) when there is none. |
| FabricRuntime.Runtime | Sources/Runtimes/FabricRuntime.swift:141-173 | The loader error comes first, then the installer error, then the Java version error. On success the runtime downloads the jar for that loader and installer, is named after the loader, and maps the `mods` volume too. |
| FabricRuntime.PlusLoadersNeverChosen | Sources/Runtimes/FabricRuntime.swift:66-69 | A chosen loader, pinned or not, never has `+` in its version. |
| FabricRuntime.UnpinnedLoaderIsStable | Sources/Runtimes/FabricRuntime.swift:156 | Without a pinned loader the chosen loader is stable. |
| FabricRuntime.PinnedRuntimeName | Sources/Runtimes/FabricRuntime.swift:170 | With a pinned loader the runtime is named after exactly that loader version. |
| FabricRuntime.StableLoadersAmongAll | Sources/Runtimes/FabricRuntime.swift:66-69 | The stable loaders are the stable ones among the loaders fetched with unstable ones allowed. |
| FabricRuntime.AvailableVersions | Sources/Runtimes/FabricRuntime.swift:110-138 | A vanilla error passes through. Otherwise each release contributes one version per loader without `+` that its probe returns, unstable loaders included, in release order. |
| FabricRuntime.ProbeMembers | Sources/Runtimes/FabricRuntime.swift:118-129 | A release contributes `release:loader` exactly for the loaders without `+` of its successful probe, stable or not. |
| FabricRuntime.AvailableExactly | Sources/Runtimes/FabricRuntime.swift:110-138 | A version is available exactly when some release's probe lists it, whatever order the probes finish in. |
| FabricRuntimeProvider.LatestFabricLoader | Sources/Runtimes/FabricRuntimeProvider.swift:53-78 | The first decoded loader whose loader and intermediary are both stable (or the first loader, when unstable ones are allowed), with no check on `+` in its version; `serverDownload` (invalid data) when there is none, and the reply's own error when it is unusable. |
| FabricRuntimeProvider.UnstableTakesFirst | Sources/Runtimes/FabricRuntimeProvider.swift:66-72 | With unstable loaders allowed, the first listed loader is taken. |
| FabricRuntimeProvider.LatestInstaller | Sources/Runtimes/FabricRuntimeProvider.swift:80-101 | The first stable installer in reply order, or the first installer when unstable ones are allowed; `serverDownload` (invalid data) when there is none, and the reply's own error when it is unusable. |
| FabricRuntimeProvider.ProbeRelease | Sources/Runtimes/FabricRuntimeProvider.swift:113-123 | A release is reported exactly when its loader probe succeeds. |
| FabricRuntimeProvider.AvailableVersions | Sources/Runtimes/FabricRuntimeProvider.swift:104-132 | A vanilla error passes through. Otherwise the result is the releases whose loader probe succeeds, in release order. |
| FabricRuntimeProvider.SupportedExactly | Sources/Runtimes/FabricRuntimeProvider.swift:113-123 | A release is supported exactly when its reply is usable and lists a stable loader. |
| FabricRuntimeProvider.AvailableAreReleases | Sources/Runtimes/FabricRuntimeProvider.swift:104-132 | A version is available exactly when it is a supported release. |
| FabricRuntimeProvider.Runtime | Sources/Runtimes/FabricRuntimeProvider.swift:135-157 | A version that is not available is an invalid Minecraft version. Otherwise the loader, installer and Java version errors pass through, in that order. On success the runtime downloads the jar for that loader and installer and is named after the loader. |
| ForgePage.Hrefs | Sources/Runtimes/ForgeRuntime.swift:204-205 | Every collected link is the `href` of some anchor. |
| ForgePage.HrefsComplete | Sources/Runtimes/ForgeRuntime.swift:204-205 | Every anchor that has an `href` contributes it. |
| ForgePage.InstallerLink | Sources/Runtimes/ForgeRuntime.swift:204-209 | The link chosen is the `href` of the first anchor, in document order, whose `href` can be read, is not an ad link and names an installer jar; none is chosen only when no anchor has one. |
| ForgePage.FirstInstallerAnchor | Sources/Runtimes/ForgeRuntime.swift:204-209 | The first installer link among the readable hrefs is the href of the first anchor that has one. |
| ForgePage.HrefsAppend | Sources/Runtimes/ForgeRuntime.swift:204-205 | The hrefs of concatenated anchor lists are concatenated, so they keep document order. |
| ForgePage.AdLinkSkipped | Sources/Runtimes/ForgeRuntime.swift:206 | An `adfoc.us` link in front never changes the choice. |
| ForgeRuntime.RowVersion | Sources/Runtimes/ForgeRuntime.swift:176-213 | A row yields a version only with a readable version cell and a valid installer URL; the version is the cell's text. |
| ForgeRuntime.EmptyPromotionStillLatest | Sources/Runtimes/ForgeRuntime.swift:193 | A row whose latest-promotion element exists but is empty still counts as latest. |
| ForgeRuntime.Versions | Sources/Runtimes/ForgeRuntime.swift:152-218 | The versions parsed from the page, row by row in page order; an unparsable page gives none. |
| ForgeRuntime.VersionsOfAppend | Sources/Runtimes/ForgeRuntime.swift:176-213 | Parsing keeps page order: rows appended to the page add their versions at the end. |
| ForgeRuntime.VersionsOfMembers | Sources/Runtimes/ForgeRuntime.swift:176-213 | A version is listed exactly when some row yields it. |
| ForgeRuntime.Installers | Sources/Runtimes/ForgeRuntime.swift:64-78 | The reply is checked, status before decoding; then the page's versions. |
| ForgeRuntime.LatestInstaller | Sources/Runtimes/ForgeRuntime.swift:80-86 | The first listed version marked latest, and `serverDownload` (not found) when there is none. |
| ForgeRuntime.LatestIsFirstListed | Sources/Runtimes/ForgeRuntime.swift:81 | When every version is marked latest, the first listed one is taken. |
| ForgeRuntime.UnparsablePageNotFound | Sources/Runtimes/ForgeRuntime.swift:155 | A page that does not parse gives `serverDownload` (not found), not invalid data. |
| ForgeRuntime.PinnedInstaller | Sources/Runtimes/ForgeRuntime.swift:121-129 | The first listed version equal to the pinned loader, and an invalid game version when there is none. |
| ForgeRuntime.Runtime | Sources/Runtimes/ForgeRuntime.swift:119-140 | An installer error passes through, then a Java version error. On success the runtime downloads the chosen installer and is named after its version. |
| ForgeRuntime.AvailableVersions | Sources/Runtimes/ForgeRuntime.swift:88-116 | A vanilla error passes through. Otherwise each release contributes one version per installer on its page, in release order. |
| ForgeRuntime.AvailableExactly | Sources/Runtimes/ForgeRuntime.swift:97-113 | A version is available exactly when some release's page lists its loader, whatever order the probes finish in. |
| ForgeRuntimeProvider.Candidate | Sources/Runtimes/ForgeRuntimeProvider.swift:156-196 | A block yields a candidate only with an installer link that is a valid URL. |
| ForgeRuntimeProvider.UnflaggedBlockSkipped | Sources/Runtimes/ForgeRuntimeProvider.swift:175-177 | A block marked neither latest nor recommended is never a candidate. |
| ForgeRuntimeProvider.LatestVersion | Sources/Runtimes/ForgeRuntimeProvider.swift:133-198 | The loop's result is the last qualifying block's candidate; an unparsable page gives none. |
| ForgeRuntimeProvider.LastCandidateStep | Sources/Runtimes/ForgeRuntimeProvider.swift:194 | A later qualifying block overwrites the earlier choice. A block that does not qualify leaves it. |
| ForgeRuntimeProvider.LastCandidateChoice | Sources/Runtimes/ForgeRuntimeProvider.swift:156-197 | There is no result exactly when no block qualifies. Otherwise the result comes from a qualifying block with none after it. |
| ForgeRuntimeProvider.Installer | Sources/Runtimes/ForgeRuntimeProvider.swift:64-81 | The reply is checked, then the page's latest version; no version gives `serverDownload` (not found). |
| ForgeRuntimeProvider.Runtime | Sources/Runtimes/ForgeRuntimeProvider.swift:114-120 | An installer error passes through, then a Java version error; the runtime is named after the installer's version. |
| ForgeRuntimeProvider.ProbeRelease | Sources/Runtimes/ForgeRuntimeProvider.swift:92-107 | A release is reported exactly when its installer lookup succeeds. |
| ForgeRuntimeProvider.AvailableVersions | Sources/Runtimes/ForgeRuntimeProvider.swift:83-111 | A vanilla error passes through. Otherwise the result is the releases whose installer lookup succeeds, in release order. |
| ForgeRuntimeProvider.AvailableExactly | Sources/Runtimes/ForgeRuntimeProvider.swift:83-111 | A version is available exactly when it is a release whose page is usable and has a candidate block. |
| NeoForgedRuntime.VersionsOf | Sources/Runtimes/NeoForgedRuntime.swift:165-173 | Each readable anchor gives a version with its `/` removed; there are no more versions than anchors. |
| NeoForgedRuntime.Versions | Sources/Runtimes/NeoForgedRuntime.swift:142-174 | An unparsable listing gives no versions; no version contains `/`. |
| NeoForgedRuntime.VersionsOfAppend | Sources/Runtimes/NeoForgedRuntime.swift:165-173 | Listing order is kept: anchors appended add their versions at the end. |
| NeoForgedRuntime.Printed | Sources/Runtimes/NeoForgedRuntime.swift:133-136 | Each component is printed in decimal, one for one. |
| NeoForgedRuntime.PrefixDropsMajor | Sources/Runtimes/NeoForgedRuntime.swift:133-136 | Minecraft `a.b.x` looks for NeoForged versions starting with `b.x`. |
| NeoForgedRuntime.ComponentsOfPatch | Sources/Shared/Minecraft.swift:31-35 | `a.b.x` has Minecraft components `[a, b, x]`. |
| NeoForgedRuntime.LatestVersion | Sources/Runtimes/NeoForgedRuntime.swift:129-140 | The chosen version is listed and has the prefix, and no later listed version has it. None is chosen only when no listed version has the prefix. |
| NeoForgedRuntime.LatestTakesLastListed | Sources/Runtimes/NeoForgedRuntime.swift:133-139 | For `latest` the prefix is empty, so the last listed version is chosen. |
| NeoForgedRuntime.LaterListingWins | Sources/Runtimes/NeoForgedRuntime.swift:137-139 | A matching version listed last is the one chosen. |
| NeoForgedRuntime.Installer | Sources/Runtimes/NeoForgedRuntime.swift:56-71 | The reply is decoded before its status is checked. No matching version gives `serverDownload` (not found). |
| NeoForgedRuntime.UndecodableIsInvalidData | Sources/Runtimes/NeoForgedRuntime.swift:61-63 | A listing that is not UTF-8 is invalid data, whatever the status. |
| NeoForgedRuntime.Runtime | Sources/Runtimes/NeoForgedRuntime.swift:101-109 | An installer error passes through, then a Java version error. On success the runtime downloads the chosen installer and is named after it. |
| NeoForgedRuntime.AvailableVersions | Sources/Runtimes/NeoForgedRuntime.swift:73-99 | A vanilla error passes through. Otherwise the result is the releases whose installer lookup succeeds, in release order. |
| QuiltRuntime.Versions | Sources/Runtimes/QuiltRuntime.swift:112-141 | The versions the listing names, with `/` removed; no more than the paragraphs. |
| QuiltRuntime.NativeNeverListed | Sources/Runtimes/QuiltRuntime.swift:129-136 | A paragraph mentioning `native` adds no version. |
| QuiltRuntime.VersionsAppend | Sources/Runtimes/QuiltRuntime.swift:112-141 | Page order is kept: paragraphs appended add their versions at the end. |
| QuiltRuntime.LatestVersion | Sources/Runtimes/QuiltRuntime.swift:107-110 | The last listed version; none only when the page does not parse or lists nothing. |
| QuiltRuntime.LastListedWins | Sources/Runtimes/QuiltRuntime.swift:107-110 | A version listed last becomes the installer. |
| QuiltRuntime.LatestInstaller | Sources/Runtimes/QuiltRuntime.swift:56-74 | The reply is decoded before its status is checked. A page without a version gives `serverDownload` (not found). |
| QuiltRuntime.AvailableVersions | Sources/Runtimes/QuiltRuntime.swift:76-81 | Exactly the vanilla releases, or the vanilla error. |
| QuiltRuntime.Runtime | Sources/Runtimes/QuiltRuntime.swift:83-91 | An installer error passes through, then a Java version error. On success the runtime downloads the latest installer, names itself after it, and passes the requested version to the install step. |
| QuiltRuntime.InstallerIndependentOfVersion | Sources/Runtimes/QuiltRuntime.swift:83-91 | Every version uses the same installer download and executable. |
| QuiltRuntime.PinnedLoaderReachesInstaller | Sources/Runtimes/QuiltRuntime.swift:25 | A pinned loader reaches the installer as `minecraft:loader`. |
| MinecraftBuilder.QuotedVolume | Sources/Builder/MinecraftBuilder.swift:38 | A volume is written as a quoted path under the server's home that contains the volume name. |
| MinecraftBuilder.QuotedVolumes | Sources/Builder/MinecraftBuilder.swift:38-39 | Each volume is quoted, one for one. |
| MinecraftBuilder.DockerfileLines | Sources/Builder/MinecraftBuilder.swift:32-63 | The Dockerfile's lines are the fixed header, then each install command on its own line, then the fixed tail. |
| MinecraftBuilder.DockerfileExposesServer | Sources/Builder/MinecraftBuilder.swift:58-61 | Every Dockerfile exposes the server port over TCP and UDP and ends with the start-script entry point. |
| MinecraftBuilder.ExposedPort | Sources/Builder/MinecraftBuilder.swift:58-59 | The exposed port is 25565. |
| MinecraftBuilder.ServerPortPrinted | Sources/Builder/Defaults.swift:17 | The port prints as `25565`. |
| MinecraftBuilder.EntryPointIsScript | Sources/Builder/MinecraftBuilder.swift:40 | The entry point is `/minecraft/start_server.bash`. |
| MinecraftBuilder.EnvKey | Sources/Builder/MinecraftBuilder.swift:70-72 | The environment key has the property's length, with each ASCII letter upper-cased and `-` or `.` replaced by `_`. |
| MinecraftBuilder.EnvKeyIsVariableName | Sources/Builder/MinecraftBuilder.swift:70-72 | For a property name the key is upper-case letters and underscores. |
| MinecraftBuilder.EnvKeyInjective | Sources/Builder/MinecraftBuilder.swift:70-72 | Different property names get different environment keys. |
| MinecraftBuilder.DefaultPropertyKeysDistinct | Sources/Builder/MinecraftBuilder.swift:69-74 | The default properties' environment keys are all different, so no override shadows another. |
| MinecraftBuilder.PropertyLine | Sources/Builder/MinecraftBuilder.swift:73 | A property's line stays one line. |
| MinecraftBuilder.PropertyLines | Sources/Builder/MinecraftBuilder.swift:69-74 | One line per property, in order. |
| MinecraftBuilder.PropertyBlockLines | Sources/Builder/MinecraftBuilder.swift:69-74 | Joined with newlines, the property lines read back one per line. |
| MinecraftBuilder.StartupScriptEndsWithCommand | Sources/Builder/MinecraftBuilder.swift:130-137 | The start script's last line is the runtime's start command. |
| MinecraftBuilder.StartCommandIsLastLine | Sources/Builder/MinecraftBuilder.swift:136 | A one-line start command is the script's final line. |
| MinecraftBuilder.InstalledJava | Sources/Builder/MinecraftBuilder.swift:180-187 | The runtime's Java version is used; without one, Java 17, the latest. |
| MinecraftBuilder.InstalledPackageNamesJava | Sources/Builder/MinecraftBuilder.swift:190-194 | The package installed in the image names exactly the Java version chosen for the runtime. |
| MinecraftBuilder.LabelValue | Sources/Builder/MinecraftBuilder.swift:247-258 | A label's value is one that was added under that name; a name that was never added has none. |
| MinecraftBuilder.Add | Sources/Builder/MinecraftBuilder.swift:250-255 | Adding a label sets its value if it was unset and leaves every other label alone. |
| MinecraftBuilder.LabelValueAppend | Sources/Builder/MinecraftBuilder.swift:250-255 | A label added later is seen only when its name was not already present. |
| MinecraftBuilder.Labels | Sources/Builder/MinecraftBuilder.swift:247-258 | The image is labelled with its type and Minecraft version. A loader version adds the modded flag and the loader: four labels, else two. |
| MinecraftBuilder.LabelKeysDistinct | Sources/Builder/MinecraftBuilder.swift:250-255 | The four label names are distinct keys. |
| MinecraftBuilder.LabelsRoundTrip | Sources/Builder/MinecraftBuilder.swift:247-258 | The type and version can be read back from an image's labels. |
| MinecraftBuilder.GenerateLatestTag | Sources/Builder/MinecraftBuilder.swift:260-265 | Vanilla's latest tag is `latest`; any other type's is `<minecraft>-` followed by a tag ending in `_latest`. |
| MinecraftBuilder.LatestTagVersusBuildTag | Sources/Builder/MinecraftBuilder.swift:260-265 | A modded image's latest tag coincides with its build tag exactly when the loader version is the word `latest`. |
| MinecraftBuilder.LatestTagNamesType | Sources/Builder/MinecraftBuilder.swift:260-265 | Two modded types never share a latest tag for the same Minecraft version. |
| GameVersionOptions.Validate | Sources/CLI/GameVersionOptions.swift:19-32 | An empty Minecraft version is refused first. A pinned loader is refused for every type except Fabric and Forge. Anything else passes. |
| GameVersionOptions.DefaultIsValid | Sources/CLI/GameVersionOptions.swift:13-17 | The defaults, vanilla and `latest`, pass validation. |
| GameVersionOptions.AnyTypeWithoutLoader | Sources/CLI/GameVersionOptions.swift:24-31 | Without a pinned loader every type is accepted. |
| GameVersionOptions.PinnedLoaderTypes | Sources/CLI/GameVersionOptions.swift:24-31 | A pinned loader is accepted exactly for Fabric and Forge; the others report their type. |
| GameVersionOptions.Describe | Sources/CLI/GameVersionOptions.swift:34-36 | The description starts with the type's description and ends with the version as written on the command line. |
| GameVersionOptions.VersionReadBack | Sources/CLI/GameVersionOptions.swift:34-36 | The version can be parsed back from the description. |
| BuildCommand.Validate | Sources/CLI/BuildCommand.swift:41-54 | An empty name, then a name with more than one `/`, then a push without both credentials are refused, each with its own error; anything else passes. |
| BuildCommand.DoubleSlashAccepted | Sources/CLI/BuildCommand.swift:44 | `ns//repo` passes validation because splitting drops the empty piece, and it pushes to `ns/repo`. |
| BuildCommand.SlashesOnlyNameHasNoNamespace | Sources/CLI/BuildCommand.swift:83-91 | The name `/` passes validation but has no namespace when pushing. |
| BuildCommand.RepositoryOf | Sources/CLI/BuildCommand.swift:83-91 | Pushing fails for lack of a namespace exactly when the name splits into nothing. |
| BuildCommand.BareNameIsNamespaceAndRepository | Sources/CLI/BuildCommand.swift:83-91 | A name without `/` is both the namespace and the repository. |
| BuildCommand.MakePlan | Sources/CLI/BuildCommand.swift:183-203 | `all` builds every available version. `latest` builds the latest version. Both tag latest. Any other version is built alone without the latest tag. An empty plan is an invalid Minecraft version. |
| BuildCommand.OnlyFirstTagged | Sources/CLI/BuildCommand.swift:208 | Only the first planned version is tagged latest, and only for `all` or `latest`. |
| BuildCommand.BuildAll | Sources/CLI/BuildCommand.swift:209-216 | The planned versions are built in reverse order; a failed build contributes nothing. |
| BuildCommand.FirstPlannedBuiltLast | Sources/CLI/BuildCommand.swift:209-216 | The first planned version, the one tagged latest, is built last. |
| BuildCommand.BuiltImagesFromPlan | Sources/CLI/BuildCommand.swift:209-216 | An image is built exactly when some planned version's build succeeds with it. |
| BuildCommand.PushList | Sources/CLI/BuildCommand.swift:98-111 | The images pushed are, in order, all of them when forced, and otherwise those whose image name (not version tag) no remote tag equals. |
| BuildCommand.ForcePushesEverything | Sources/CLI/BuildCommand.swift:98-111 | A forced push pushes every image. |
| BuildCommand.SkipsOnlyOnImageName | Sources/CLI/BuildCommand.swift:106 | Without force, an image is skipped exactly when some remote tag equals its image name. |
| BuildCommand.PushesExistingTagAgain | Sources/CLI/BuildCommand.swift:106 | An image whose version tag `1.20.1` is already on the registry is still pushed without force. |
| BuildCommand.IntendedPushList | Sources/CLI/BuildCommand.swift:105-106 | Corrected loop: an image is pushed exactly when it was built and either force is set or its version tag is not on the registry. |
| BuildCommand.IntendedForcePushesEverything | Sources/CLI/BuildCommand.swift:100-104 | With force, the corrected list is every built image, in order. |
| BuildCommand.Push | Sources/CLI/BuildCommand.swift:81-112 | A missing namespace and the registry's errors stop the push; otherwise the images to push are those of `PushList`. |
| BuildCommand.Clean | Sources/CLI/BuildCommand.swift:114-121 | Cleaning succeeds exactly when every image is removed, and counts them. |
| BuildCommand.Run | Sources/CLI/BuildCommand.swift:151-252 | Each outcome with its exact condition: `loginFailed` iff pushing without a login; `invalidMinecraftVersion` iff past login and the plan is empty; `pushFailed` iff past the plan and the namespace, registry listing or tags are missing; `cleanupFailed` iff past the push and a built image is not removed; success iff none of these. On success, the built images are the reversed plan's builds, the pushed ones the push list (only when pushing), the removed count every built image (only when cleaning). |
| PyDict.Keys | src/minecraft_server_downloader/java_server_downloader.py:33-40 | A dict's keys, in insertion order. |
| PyDict.Get | src/downloaders/vanilla_downloader.py:44 | Lookup finds a value exactly for a key that is present, and it is that key's value. |
| PyDict.Set | src/downloaders/vanilla_downloader.py:37 | Assigning adds a new key at the end or keeps an existing key's place. Afterwards the key maps to the new value and every other key is unchanged. |
| PyManifest.ReleaseIds | src/downloaders/vanilla_downloader.py:32-37 | The ids of exactly the manifest's release entries. |
| PyManifest.ReleaseKeysInManifestOrder | src/downloaders/vanilla_downloader.py:29-38 | The table's keys are the release ids in the order they first appear. |
| PyManifest.LastReleaseUrlWins | src/downloaders/vanilla_downloader.py:37 | For a repeated id the last release entry's URL is kept. |
| PyManifest.ReleaseTableMembers | src/downloaders/vanilla_downloader.py:29-38 | The table has an entry exactly for every release id. |
| PyVanillaDownloader.FileName | src/downloaders/vanilla_downloader.py:26-27 | The file name is the version followed by `.jar`. |
| PyVanillaDownloader.GameVersions | src/downloaders/vanilla_downloader.py:29-38 | The loop builds the release table. |
| PyVanillaDownloader.DownloadUrl | src/downloaders/vanilla_downloader.py:40-49 | A version that is not a release raises `KeyError`; otherwise the server URL of its manifest is the result. |
| PyVanillaDownloader.DownloadUrlOfLastEntry | src/downloaders/vanilla_downloader.py:44-49 | The manifest fetched is the one named by the version's last release entry. |
| PyVanillaDownloader.OnlyReleasesDownloadable | src/downloaders/vanilla_downloader.py:34-37 | A version listed only as a snapshot raises `KeyError`. |
| PyJavaServerDownloader.FileName | src/minecraft_server_downloader/java_server_downloader.py:28-29 | The file name is the version followed by `.jar`. |
| PyJavaServerDownloader.GameVersions | src/minecraft_server_downloader/java_server_downloader.py:31-40 | The loop builds the release table. |
| PyJavaServerDownloader.AvailableGameVersions | src/minecraft_server_downloader/java_server_downloader.py:42-53 | Without release `1.7.2`, `ValueError`. Otherwise the release keys up to and including its first occurrence. |
| PyJavaServerDownloader.NewestReleaseFirst | src/minecraft_server_downloader/java_server_downloader.py:47-53 | The list starts with the manifest's first release. |
| PyJavaServerDownloader.SupportedAreReleases | src/minecraft_server_downloader/java_server_downloader.py:47-53 | Every supported version is a release. |
| PyJavaServerDownloader.PathJoin | src/minecraft_server_downloader/java_server_downloader.py:58 | The destination path ends with the file name. |
| PyJavaServerDownloader.Download | src/minecraft_server_downloader/java_server_downloader.py:55-104 | A version that is not a release raises `KeyError`. The download succeeds exactly when the server URL is set and the saved file exists with the expected size and SHA1, and then it returns the destination path. Any other failure is a `ServerDownloadError`. |
| PyFabricDownloader.ChooseInstaller | src/downloaders/fabric_downloader.py:56-62 | The loop stops at the first eligible installer with a non-empty string version. Otherwise it keeps the last eligible installer's version, or `None`. |
| PyFabricDownloader.EligibleVersionStep | src/downloaders/fabric_downloader.py:57-60 | One more item updates the fallback exactly when it is eligible. |
| PyFabricDownloader.FallsBackToLastEligible | src/downloaders/fabric_downloader.py:57-62 | Without a usable installer, the last eligible item's version is used, even when it is not a string. |
| PyFabricDownloader.NoStableInstallerPrintsNone | src/downloaders/fabric_downloader.py:56-62 | Without a stable installer the version string embeds `None`. |
| PyFabricDownloader.RecordOf | src/downloaders/fabric_downloader.py:87-113 | A record is made only for a loader with a non-empty string version. Its version is `loader/installer`, and it is stable unless unstable ones are allowed. |
| PyFabricDownloader.RecordsAppend | src/downloaders/fabric_downloader.py:87-113 | Records keep item order: items appended add their records at the end. |
| PyFabricDownloader.Best | src/downloaders/fabric_downloader.py:114-115 | The latest record has the highest build above -1 and is the first with that build. There is none only when no build is above -1. |
| PyFabricDownloader.UnconvertibleBuildNeverLatest | src/downloaders/fabric_downloader.py:103-107 | A record whose build was not an integer is never the latest. |
| PyFabricDownloader.HigherBuildTakesOver | src/downloaders/fabric_downloader.py:114-115 | A record with a higher build than all before it becomes the latest. |
| PyFabricDownloader.TieKeepsEarlier | src/downloaders/fabric_downloader.py:114-115 | A record with the same build as the latest does not replace it. |
| PyFabricDownloader.GetFabricVersions | src/downloaders/fabric_downloader.py:26-118 | With no loaders or no installers, an empty result. Otherwise the records in item order, with the best record's version as `latest`. |
| PyFabricDownloader.RecordsShape | src/downloaders/fabric_downloader.py:96-113 | Every record's version holds a `/`, and without unstable loaders allowed every record is stable. |
| PyFabricDownloader.RecordVersionsNotEmpty | src/downloaders/fabric_downloader.py:117 | A latest version built as `loader/installer` is never empty. |
| PyFabricDownloader.DownloadUrl | src/downloaders/fabric_downloader.py:136-144 | The versions are read with `allow_unstable` false. `FabricVersionNotFoundError` iff there is no latest version; otherwise the URL is the template filled with the Minecraft version and the latest version, the version of a stable record with the greatest build. |
| PyForgeDownloader.AssembleDownloadUrl | src/downloaders/forge_downloader.py:63-69 | The URL names `<minecraft>-<forge>` as the directory and ends with that installer's file name. |
| PyForgeDownloader.FileName | src/downloaders/forge_downloader.py:71-73 | `forge-<version>-installer.jar`. |
| PyForgeDownloader.Insert | src/downloaders/forge_downloader.py:47 | Insertion adds exactly the one element. |
| PyForgeDownloader.InsertSorted | src/downloaders/forge_downloader.py:47 | Insertion into a sorted list keeps it sorted. |
| PyForgeDownloader.SortStrings | src/downloaders/forge_downloader.py:47 | `list.sort()` permutes the list. |
| PyForgeDownloader.SortStringsSorted | src/downloaders/forge_downloader.py:47 | `list.sort()` leaves the list in string order. |
| PyForgeDownloader.StrLessIrreflexive | src/downloaders/forge_downloader.py:47 | String order is irreflexive. |
| PyForgeDownloader.StrLessTotal | src/downloaders/forge_downloader.py:47 | String order is total. |
| PyForgeDownloader.StrLessTransitive | src/downloaders/forge_downloader.py:47 | String order is transitive. |
| PyForgeDownloader.StrLeqTransitive | src/downloaders/forge_downloader.py:47 | Non-strict string order is transitive. |
| PyForgeDownloader.DedupeVersions | src/downloaders/forge_downloader.py:48-51 | The loop keeps each version at its first occurrence, in order. |
| PyForgeDownloader.DedupeSorted | src/downloaders/forge_downloader.py:47-51 | Deduplicating a sorted list keeps it sorted. |
| PyForgeDownloader.Offered | src/downloaders/forge_downloader.py:47-51 | The offered list is empty only when there are no matches. |
| PyForgeDownloader.OfferedAreSortedMatches | src/downloaders/forge_downloader.py:47-51 | The offered versions are exactly the matches, in string order. |
| PyForgeDownloader.SortedLastIsGreatest | src/downloaders/forge_downloader.py:57 | The last element of a sorted list is the greatest string. |
| PyForgeDownloader.LatestIsGreatestString | src/downloaders/forge_downloader.py:57 | `latest` is the greatest match in string order. |
| PyForgeDownloader.GetForgeVersions | src/downloaders/forge_downloader.py:32-61 | An empty page gives an empty result. Otherwise no match raises `IndexError`. Else the offered versions, the last as `latest`, and the first recommended match if any. |
| PyForgeDownloader.DownloadUrl | src/downloaders/forge_downloader.py:83-91 | The recommended version is used when there is one, else `latest`. Without `latest` a `KeyError` is raised. |
| PyForgeDownloader.LatestAsWritten | src/downloaders/forge_downloader.py:47-57 | As written, `latest` is one of the matches. |
| PyForgeDownloader.StringOrderPicksOlderVersion | src/downloaders/forge_downloader.py:47-57 | With matches `47.2.20` and `47.2.3`, the code picks `47.2.3`, which is numerically older. |
| PyForgeDownloader.ExampleOffered | src/downloaders/forge_downloader.py:47-51 | `47.2.20` sorts before `47.2.3`. |
| PyForgeDownloader.ExampleLatestAsWritten | src/downloaders/forge_downloader.py:57 | The code as written takes `47.2.3` from those two matches. |
| PyForgeDownloader.NewestByNumber | src/downloaders/forge_downloader.py:47-57 | The intended choice: a match that no match is numerically above. |
| PyForgeDownloader.KeyLessTransitive | src/downloaders/forge_downloader.py:47 | The numeric version order is transitive. |
| PyForgeDownloader.KeyLessIrreflexive | src/downloaders/forge_downloader.py:47 | The numeric version order is irreflexive. |
| PyForgeDownloader.KeyOf47 | src/downloaders/forge_downloader.py:47 | `47.2.x` has the numeric key `[47, 2, x]`. |
| PyForgeDownloader.ExampleKeys | src/downloaders/forge_downloader.py:47 | `47.2.20` and `47.2.3` have the keys `[47, 2, 20]` and `[47, 2, 3]`. |
| PyForgeDownloader.ExampleNewest | src/downloaders/forge_downloader.py:57 | The intended choice from those two is `47.2.20`. |
| PyForgeDownloader.IntendedForgeVersions | src/downloaders/forge_downloader.py:32-61 | With a match, `latest` is a match that no match is numerically above. |

## Left out

- Networking, HTML and JSON parsing (SwiftSoup, `JSONDecoder`, Python `json`
  and `re`), the Docker client, the registry, file writes and the clock are
  not modelled. Their results are inputs: replies, parsed rows, anchors and
  paragraphs, regex matches, build results, tag lists, removals.
- `URL(string:)` validity is not modelled. It is a parameter `isUrl` of the
  Forge parsers.
- Concurrency is modelled sequentially. Swift task groups in the providers'
  `availableVersions` run one task per element. Their results
  are modelled in input order, where the source collects them in completion
  order; the `...Exactly` and `...Members` lemmas state what holds for any
  order.
- VanillaRuntime.VanillaRuntimeProvider.Manifest: the race between two
  concurrent first fetches (both may fetch and both may write the cache) is
  not modelled.
- Log messages and the text of error messages are not modelled. Each
  `serverDownload` error keeps only its reason. Python errors keep only their
  exception class.
- The Python `list.sort()` is modelled as a functional insertion sort on a
  sequence, not in place.
- The Python downloaders' `print` output is not modelled. Neither is the
  `recommended` regex beyond its list of matches.
- `Sources/CLI/MinecraftVersionOptions.swift` and
  `Sources/CLI/RegistryOptions.swift` are not part of this model.
- `DownloadCommand`, `RunCommand`, `ListCommand`, the Bedrock downloader and
  the Python entry point are not part of this model.
- The file download, size and SHA1 checks of the Java server downloader are
  not modelled as computations. The saved file's existence, size and hash are
  inputs.
- RuntimesProtocol.LatestVersion and RuntimesProtocol.Greatest: only lists
  whose every two positions compare without trapping are modelled. A trap
  ends the process, so it has no error value to model; which pairs the sort
  actually compares depends on its algorithm, so a list with one trapping
  pair that the sort happens never to compare is outside the model too.
- DownloaderProtocol.LatestVersion and DownloaderProtocol.Greatest: only
  sortable lists are modelled. A version with fewer than two numeric
  components is incomparable with all but `latest`, so the sort has no strict
  weak order to follow: on `[1.20, 1, 1.21]` it may return `1.20`. A pair the
  written `<` traps on stops the sort: two equal two-part versions (see
  Findings), or `1.20` against a four-part `1.20.1.1`.
- MinecraftBuilder.Add: `Docker.Labels.add` is not part of this model. The
  model keeps the first value added under a name; the labels added all have
  distinct names (MinecraftBuilder.LabelKeysDistinct), so the choice does not
  show.
- Minecraft.CompareComponents and Minecraft.Less: where Swift would trap on a
  missing component, the model has a precondition rather than an error.
- PyFabricDownloader.GetFabricVersions: the `"rev"` value, when it is not an
  integer and not convertible, is modelled as `-1` through an optional build
  number. Python's `int()` on floats and numeric strings is not modelled
  separately.
- The NeoForged source comment about `21.2.57` mapping to Minecraft `1.21.1`
  does not match the code's prefix rule. The model follows the code:
  `1.21.1` looks for `21.1`.
- BuildCommand.Push and BuildCommand.Run: the repository lookup force-unwraps
  the registry's answer (`Sources/CLI/BuildCommand.swift:91-93`), which traps
  when the namespace does not list the repository. The model requires the
  repository to be listed (BuildCommand.RepositoryListed) instead of
  modelling the trap, which has no error value.
- BuildCommand.Push and BuildCommand.Run keep the skip test as written (see
  Findings); the corrected test is BuildCommand.IntendedPushList.

## Findings

| source | as written | input that shows it | evidently intended | confidence | as-written member | corrected member |
|---|---|---|---|---|---|---|
| Sources/Shared/MinecraftVersionType.swift:58 | When both versions have exactly two components and equal major and minor, `<` reads component index 2 and traps. | `MinecraftVersion("1.20") < MinecraftVersion("1.20")`, which happens when sorting a list that holds `1.20` twice. | Equal versions are not below each other: `<` returns false. | high, not executed | MinecraftVersionType.EqualTwoPartVersionsTrap | MinecraftVersionType.LessIrreflexive |
| Sources/CLI/BuildCommand.swift:106 | The skip test compares each remote tag's name with `image.tag.name`, which is the image name (`rdall96/minecraft-server`), not the version tag. | Without force, `rdall96/minecraft-server:1.20.1` with `1.20.1` already on the registry is pushed again. | Skip an image whose version tag (`image.tag.tag`) the registry already lists. | high, not executed | BuildCommand.PushesExistingTagAgain | BuildCommand.IntendedPushList |
| src/downloaders/forge_downloader.py:47 | `version_data.sort()` sorts version strings lexicographically, and `latest` is the last of them. | Matches `["47.2.20", "47.2.3"]` give `latest == "47.2.3"`. | Sort from oldest to newest by version number, so `latest` is `47.2.20`. | high, not executed | PyForgeDownloader.StringOrderPicksOlderVersion | PyForgeDownloader.IntendedForgeVersions |
