/**
  The build plan (`MinecraftBuilder`): the Dockerfile and the start script
  generated for a runtime, the labels and the `latest` tag given to the image,
  and the Java runtime installed when the version recommends none.

  Both generated files are kept as the list of pieces the template joins
  with line feeds; a piece that is itself a joined list (the install
  commands, the server properties) is one entry, as in the template.
*/
module MinecraftBuilder {
  import opened Wrappers
  import opened Text
  import opened Minecraft
  import opened JavaVersion
  import Java = JavaVersion
  import Defaults
  import RuntimesProtocol

  /** The image every build starts from, written `name:tag`. */
  const BaseImage: string := "alpine:3.22.2"

  const StartupScriptPath: string := Defaults.HomeDirectory + "/" + Defaults.StartupScriptName

  // ---------------------------------------------------------------------------
  // Dockerfile

  /** A volume as the `VOLUME` instruction lists it: its path under the home directory, in double quotes. */
  function QuotedVolume(volume: string): (quoted: string)
    ensures |quoted| == |volume| + |Defaults.HomeDirectory| + 3
    ensures HasPrefix(quoted, "\"" + Defaults.HomeDirectory + "/") && HasSuffix(quoted, "\"")
    ensures quoted[|Defaults.HomeDirectory| + 2..|quoted| - 1] == volume
  {
    "\"" + Defaults.HomeDirectory + "/" + volume + "\""
  }

  function QuotedVolumes(volumes: seq<string>): (quoted: seq<string>)
    ensures |quoted| == |volumes|
    ensures forall i :: 0 <= i < |volumes| ==> quoted[i] == QuotedVolume(volumes[i])
  {
    if volumes == [] then [] else [QuotedVolume(volumes[0])] + QuotedVolumes(volumes[1..])
  }

  /** The `RUN` instruction; the template continues it over three source lines, so it is one line of output. */
  function InstallRuntimeLine(systemPackages: seq<string>): string {
    "RUN apk update     && apk add bash " + Join(systemPackages, " ") + "     && mkdir " + Defaults.HomeDirectory
  }

  function DockerfileHead(systemPackages: seq<string>): seq<string> {
    [
      "FROM " + BaseImage + " AS base",
      "",
      "# Install the runtime (java) and other dependencies",
      InstallRuntimeLine(systemPackages),
      "",
      "# Install Minecraft"
    ]
  }

  const ExposeTcp: string := "EXPOSE " + NatToString(Defaults.ServerPort) + "/tcp"
  const ExposeUdp: string := "EXPOSE " + NatToString(Defaults.ServerPort) + "/udp"
  const EntryPoint: string := "ENTRYPOINT [ \"" + StartupScriptPath + "\" ]"

  function VolumeLine(volumes: seq<string>): string {
    "VOLUME [ " + Join(QuotedVolumes(volumes), ", ") + " ]"
  }

  function DockerfileTail(volumes: seq<string>): seq<string> {
    [
      "",
      "# Copy the server startup script",
      "COPY --chmod=755 " + Defaults.StartupScriptName + " " + StartupScriptPath,
      "",
      "# Container settings",
      "WORKDIR " + Defaults.HomeDirectory,
      ExposeTcp,
      ExposeUdp,
      VolumeLine(volumes),
      EntryPoint
    ]
  }

  /** `generateDockerFile(systemPackages:installCommands:volumes:)`. */
  function GenerateDockerFile(systemPackages: seq<string>, installCommands: seq<string>, volumes: seq<string>): string {
    Join(DockerfileHead(systemPackages) + [Join(installCommands, "\n")] + DockerfileTail(volumes), "\n")
  }

  // ---------------------------------------------------------------------------
  // Start script

  /**
    The environment variable that overrides a server property: upper case,
    with `-` and `.` turned into `_`. Only ASCII letters are upper-cased,
    where Swift's `uppercased()` follows Unicode; the default property names
    are ASCII, so the two agree on them.
  */
  function EnvKey(property: string): (key: string)
    ensures |key| == |property|
    ensures '\n' !in property ==> '\n' !in key
    ensures forall i :: 0 <= i < |property| ==>
      key[i] == if property[i] == '-' || property[i] == '.' then '_' else UpperChar(property[i])
  {
    ReplaceChar(ReplaceChar(Uppercased(property), '-', '_'), '.', '_')
  }

  /** The line that maps a property's environment variable to the property name. */
  function PropertyLine(property: string): (line: string)
    ensures '\n' !in property ==> '\n' !in line
  {
    "PROPERTIES[" + EnvKey(property) + "]='" + property + "'"
  }

  function PropertyLines(properties: seq<string>): (lines: seq<string>)
    ensures |lines| == |properties|
    ensures forall i :: 0 <= i < |properties| ==> lines[i] == PropertyLine(properties[i])
  {
    if properties == [] then [] else [PropertyLine(properties[0])] + PropertyLines(properties[1..])
  }

  const ScriptHead: seq<string> := [
      "#!/bin/bash",
      "# Entry point for starting the minecraft server",
      "",
      "# Print out the java version",
      "java -version",
      "",
      "cd " + Defaults.HomeDirectory,
      "",
      "# Set EULA",
      "echo \"eula=$EULA\" > eula.txt",
      "",
      "# Collect environment variables (key = env var, value = minecraft name)",
      "declare -A PROPERTIES"
  ]

  const ScriptMiddle: seq<string> := [
      "",
      "# Wipe the server.properties file and re-write it with any overrides found in environment variables",
      "echo '' > server.properties",
      "for key in \"${!PROPERTIES[@]}\"; do",
      "    # Check if environment variable is set",
      "    if [[ -n \"${!key}\" ]]; then",
      "        echo \"${PROPERTIES[$key]}=${!key}\" >> server.properties",
      "    fi",
      "done",
      "",
      "# Persistent server configuration files (i.e.: whitelist, ops, etc...)",
      "LEGACY_CONFIG_FILES=(",
      "    \"white-list.txt\" \"ops.txt\" \"banned-players.txt\"",
      ")",
      "CONFIG_FILES=(",
      "    \"whitelist.json\" \"ops.json\" \"banned-players.json\"",
      ")",
      "# Create the persistent server configuration file (if they don't exist already)",
      "for file_name in \"${LEGACY_CONFIG_FILES[@]}\"; do",
      "    touch \"" + Defaults.ConfigurationsDirectory + "/$file_name\"",
      "    # Create symlinks to the server persistent configurations",
      "    ln -sf \"" + Defaults.ConfigurationsDirectory + "/$file_name\" \"" + Defaults.HomeDirectory + "/$file_name\"",
      "done",
      "# Create the persistent server configuration file (if they don't exist already)",
      "for file_name in \"${CONFIG_FILES[@]}\"; do",
      "    if [[ ! -e \"" + Defaults.ConfigurationsDirectory + "/$file_name\" ]]; then",
      "        echo \"[]\" > \"" + Defaults.ConfigurationsDirectory + "/$file_name\"",
      "    fi",
      "    # Create symlinks to the server persistent configurations",
      "    ln -sf \"" + Defaults.ConfigurationsDirectory + "/$file_name\" \"" + Defaults.HomeDirectory + "/$file_name\"",
      "done",
      "",
      "# Extra JVM args users can specify",
      "touch \"" + Defaults.ConfigurationsDirectory + "/jvm_args.txt\"",
      "ln -sf \"" + Defaults.ConfigurationsDirectory + "/jvm_args.txt\" \"" + Defaults.HomeDirectory + "/user_jvm_args.txt\"",
      "",
      "# Add a guide to what these configuration files are for",
      "echo -e '# Minecraft server configuration files\\n\\nText files (.txt) are for legacy versions (prior to 1.8), any new version of Minecraft will use the JSON format.\\nIf your server is running Minecraft 1.8 or newer, you can delete the old (txt) files.",
      "",
      "You can add custom JVM arguments to the jvm_args.txt file to further customize the Java runtime for your server. Add `-XX:+PrintFlagsFinal` at the top of the jvm_args.txt file to print all JVM options at runtime before starting the Minecraft server.' > " + Defaults.ConfigurationsDirectory + "/README.txt",
      "",
      "# Display current server.properties",
      "echo -e '\\nServer properties:'",
      "cat server.properties",
      "",
      "# Start the server",
      "echo -e \"Starting server...\\nCustom args: $@",
      "\""
  ]

  /** `generateStartupScript(serverProperties:command:)`. */
  function GenerateStartupScript(serverProperties: seq<string>, command: string): string {
    Join(ScriptHead + [Join(PropertyLines(serverProperties), "\n")] + ScriptMiddle + [command], "\n")
  }

  // ---------------------------------------------------------------------------
  // From a runtime to the build files (`build`)

  /** The Java runtime installed: the one the version recommends, or `JavaVersion.latest` when it recommends none. */
  function InstalledJava(recommended: Option<JavaVersion>): (java: JavaVersion)
    ensures recommended.Some? ==> java == recommended.value
    ensures recommended.None? ==> java == Java.Latest && java.RawValue() == 17
  {
    match recommended
    case Some(java) => java
    case None => Java.Latest
  }

  /** The Dockerfile `build` writes for a runtime. */
  function DockerfileFor(runtime: RuntimesProtocol.Runtime): string {
    GenerateDockerFile([InstalledJava(runtime.javaVersion).PackageName()], runtime.installCommands, runtime.mappedVolumes)
  }

  /** The start script `build` writes for a runtime: the default server properties and the runtime's start command. */
  function StartupScriptFor(runtime: RuntimesProtocol.Runtime): string {
    GenerateStartupScript(Defaults.ServerProperties, runtime.startCommand)
  }

  // ---------------------------------------------------------------------------
  // Labels and tags

  /** The labels the builder sets, and the name each is written under. */
  datatype LabelName = TypeLabel | VersionLabel | ModdedLabel | LoaderLabel {
    function Key(): string {
      match this
      case TypeLabel => "minecraft.server.type"
      case VersionLabel => "minecraft.server.version"
      case ModdedLabel => "minecraft.server.isModded"
      case LoaderLabel => "minecraft.server.modLoader.version"
    }
  }

  datatype Label = Label(name: LabelName, value: string)

  /** The value of the first label with the given name. */
  function LabelValue(labels: seq<Label>, name: LabelName): (value: Option<string>)
    ensures value.Some? ==> Label(name, value.value) in labels
    ensures value.None? <==> forall l :: l in labels ==> l.name != name
  {
    if labels == [] then None
    else if labels[0].name == name then Some(labels[0].value)
    else LabelValue(labels[1..], name)
  }

  /**
    `Docker.Labels.labels(for:type:)`: the type and the version always, and
    the modded flag with the loader version when a loader is pinned.
  */
  method Labels(version: GameVersion, t: GameType) returns (labels: seq<Label>)
    ensures LabelValue(labels, TypeLabel) == Some(t.RawValue())
    ensures LabelValue(labels, VersionLabel) == Some(version.minecraft)
    ensures LabelValue(labels, ModdedLabel) == if version.modLoader.Some? then Some("true") else None
    ensures LabelValue(labels, LoaderLabel) == version.modLoader
    ensures |labels| == if version.modLoader.Some? then 4 else 2
  {
    labels := [];
    labels := Add(labels, Label(TypeLabel, t.RawValue()));
    labels := Add(labels, Label(VersionLabel, version.minecraft));
    if version.modLoader.Some? {
      labels := Add(labels, Label(ModdedLabel, "true"));
      labels := Add(labels, Label(LoaderLabel, version.modLoader.value));
    }
  }

  /** `Docker.Labels.add(name:value:)`: the entry is appended; an earlier entry of the same name keeps its value. */
  method Add(labels: seq<Label>, entry: Label) returns (added: seq<Label>)
    ensures |added| == |labels| + 1
    ensures LabelValue(added, entry.name) == if LabelValue(labels, entry.name).Some? then LabelValue(labels, entry.name) else Some(entry.value)
    ensures forall name :: name != entry.name ==> LabelValue(added, name) == LabelValue(labels, name)
  {
    added := labels + [entry];
    forall name | true
      ensures LabelValue(added, name) ==
        if LabelValue(labels, name).Some? then LabelValue(labels, name)
        else if entry.name == name then Some(entry.value) else None
    {
      LabelValueAppend(labels, entry, name);
    }
  }

  lemma {:induction false} LabelValueAppend(labels: seq<Label>, entry: Label, name: LabelName)
    ensures LabelValue(labels + [entry], name) ==
      if LabelValue(labels, name).Some? then LabelValue(labels, name)
      else if entry.name == name then Some(entry.value) else None
  {
    if labels != [] {
      assert (labels + [entry])[1..] == labels[1..] + [entry];
      LabelValueAppend(labels[1..], entry, name);
    }
  }

  /** Different labels are written under different names. */
  lemma LabelKeysDistinct(a: LabelName, b: LabelName)
    ensures a.Key() == b.Key() <==> a == b
  {
    if a != b {
      assert a.Key()[17] != b.Key()[17];
    }
  }

  /** Reads the game type and the version back from an image's labels. */
  function FromLabels(labels: seq<Label>): Option<(GameType, GameVersion)> {
    match (LabelValue(labels, TypeLabel), LabelValue(labels, VersionLabel))
    case (Some(raw), Some(minecraft)) =>
      (match GameTypeFromRawValue(raw)
       case Some(t) => Some((t, GameVersion(minecraft, LabelValue(labels, LoaderLabel))))
       case None => None)
    case _ => None
  }

  /** `generateLatestTag(version:type:)`: the tag an image gets when it is the newest of its type. */
  function GenerateLatestTag(version: GameVersion, t: GameType): (tag: string)
    ensures t == Vanilla ==> tag == "latest"
    ensures t != Vanilla ==> HasPrefix(tag, version.minecraft + "-") && HasSuffix(tag, "_latest")
  {
    if t == Vanilla then t.LatestTag() else version.minecraft + "-" + t.LatestTag()
  }

  // ---------------------------------------------------------------------------
  // Facts

  /**
    The Dockerfile, line by line: the lines of the fixed head, each install
    command on a line of its own and in order, then the lines of the fixed tail.
  */
  lemma DockerfileLines(systemPackages: seq<string>, installCommands: seq<string>, volumes: seq<string>)
    requires installCommands != []
    requires forall i :: 0 <= i < |installCommands| ==> '\n' !in installCommands[i]
    ensures Lines(GenerateDockerFile(systemPackages, installCommands, volumes)) ==
      Lines(Join(DockerfileHead(systemPackages), "\n")) + installCommands + Lines(Join(DockerfileTail(volumes), "\n"))
  {
    SpliceLines(DockerfileHead(systemPackages), installCommands, DockerfileTail(volumes));
  }

  lemma ServerPortPrinted()
    ensures NatToString(Defaults.ServerPort) == "25565"
  {
  }

  /** The image listens on the server port over TCP and UDP, and its entry point is the start script. */
  lemma DockerfileExposesServer(systemPackages: seq<string>, installCommands: seq<string>, volumes: seq<string>)
    ensures ExposeTcp in Lines(GenerateDockerFile(systemPackages, installCommands, volumes))
    ensures ExposeUdp in Lines(GenerateDockerFile(systemPackages, installCommands, volumes))
    ensures
      var lines := Lines(GenerateDockerFile(systemPackages, installCommands, volumes));
      lines[|lines| - 1] == EntryPoint
  {
    var tail := DockerfileTail(volumes);
    var pieces := DockerfileHead(systemPackages) + [Join(installCommands, "\n")] + tail;
    assert |tail| == 10 && tail[6] == ExposeTcp && tail[7] == ExposeUdp && tail[9] == EntryPoint;
    assert pieces[|pieces| - 4] == ExposeTcp && pieces[|pieces| - 3] == ExposeUdp && pieces[|pieces| - 1] == EntryPoint;
    ClosingLinesSingle();
    ClosingLines(pieces, ExposeTcp, ExposeUdp, EntryPoint);
  }

  lemma ClosingLinesSingle()
    ensures '\n' !in ExposeTcp && '\n' !in ExposeUdp && '\n' !in EntryPoint
  {
    var port := NatToString(Defaults.ServerPort);
    assert AllDigits(port);
    assert ExposeTcp == "EXPOSE " + port + "/tcp";
    assert ExposeUdp == "EXPOSE " + port + "/udp";
  }

  /** The port is exposed as `25565`, for TCP and UDP alike. */
  lemma ExposedPort()
    ensures ExposeTcp == "EXPOSE 25565/tcp" && ExposeUdp == "EXPOSE 25565/udp"
  {
    ServerPortPrinted();
  }

  /** The entry point is the start script in the home directory. */
  lemma EntryPointIsScript()
    ensures StartupScriptPath == "/minecraft/start_server.bash"
  {
  }

  lemma ClosingLines(pieces: seq<string>, tcp: string, udp: string, entry: string)
    requires |pieces| >= 4 && pieces[|pieces| - 4] == tcp && pieces[|pieces| - 3] == udp && pieces[|pieces| - 1] == entry
    requires '\n' !in tcp && '\n' !in udp && '\n' !in entry
    ensures tcp in Lines(Join(pieces, "\n")) && udp in Lines(Join(pieces, "\n"))
    ensures
      var lines := Lines(Join(pieces, "\n"));
      lines[|lines| - 1] == entry
  {
    JoinedLineMember(pieces, |pieces| - 4);
    JoinedLineMember(pieces, |pieces| - 3);
    JoinedLastLine(pieces);
  }

  /**
    The start script: the fixed text with one `PROPERTIES` line per
    property, in order, and then, after a line feed, the start command.
  */
  lemma StartupScriptEndsWithCommand(serverProperties: seq<string>, command: string)
    ensures Lines(GenerateStartupScript(serverProperties, command)) ==
      Lines(Join(ScriptHead + [Join(PropertyLines(serverProperties), "\n")] + ScriptMiddle, "\n")) + Lines(command)
  {
    LinesOfJoinSnoc(ScriptHead + [Join(PropertyLines(serverProperties), "\n")] + ScriptMiddle, command);
  }

  /** The properties block holds one line per property, in order, when no property spans lines. */
  lemma PropertyBlockLines(serverProperties: seq<string>)
    requires serverProperties != []
    requires forall i :: 0 <= i < |serverProperties| ==> '\n' !in serverProperties[i]
    ensures Lines(Join(PropertyLines(serverProperties), "\n")) == PropertyLines(serverProperties)
  {
    var props := PropertyLines(serverProperties);
    LinesOfJoin(props);
  }

  /** The server is started last: a one-line start command is the last line of the script. */
  lemma StartCommandIsLastLine(serverProperties: seq<string>, command: string)
    requires '\n' !in command
    ensures
      var lines := Lines(GenerateStartupScript(serverProperties, command));
      lines[|lines| - 1] == command
  {
    StartupScriptEndsWithCommand(serverProperties, command);
    LinesSingle(command);
  }

  /** On property names the key transform loses nothing, so two properties never share a variable. */
  lemma EnvKeyInjective(a: string, b: string)
    requires Defaults.IsPropertyName(a) && Defaults.IsPropertyName(b)
    requires EnvKey(a) == EnvKey(b)
    ensures a == b
  {
    forall i | 0 <= i < |a|
      ensures a[i] == b[i]
    {
      assert EnvKey(a)[i] == EnvKey(b)[i];
    }
  }

  /** A property name turns into a shell variable name: upper-case letters and underscores. */
  lemma EnvKeyIsVariableName(property: string)
    requires Defaults.IsPropertyName(property)
    ensures forall i :: 0 <= i < |property| ==> 'A' <= EnvKey(property)[i] <= 'Z' || EnvKey(property)[i] == '_'
  {
  }

  /** No `PROPERTIES` entry of the default script overwrites another: their keys are pairwise distinct. */
  lemma DefaultPropertyKeysDistinct()
    ensures forall i, j :: 0 <= i < j < |Defaults.ServerProperties| ==>
      EnvKey(Defaults.ServerProperties[i]) != EnvKey(Defaults.ServerProperties[j])
  {
    Defaults.ServerPropertiesWellFormed();
    forall i, j | 0 <= i < j < |Defaults.ServerProperties|
      ensures EnvKey(Defaults.ServerProperties[i]) != EnvKey(Defaults.ServerProperties[j])
    {
      var a, b := Defaults.ServerProperties[i], Defaults.ServerProperties[j];
      assert a in Defaults.ServerProperties && b in Defaults.ServerProperties;
      if EnvKey(a) == EnvKey(b) {
        EnvKeyInjective(a, b);
      }
    }
  }

  /** The package the Dockerfile installs names the recommended runtime, or Java 17 when none is recommended. */
  lemma InstalledPackageNamesJava(runtime: RuntimesProtocol.Runtime)
    ensures FromPackageName(InstalledJava(runtime.javaVersion).PackageName()) ==
      Some(if runtime.javaVersion.Some? then runtime.javaVersion.value else Java17)
  {
    PackageNameInjective(InstalledJava(runtime.javaVersion), InstalledJava(runtime.javaVersion));
  }

  /** The labels record the type and the version completely: both read back. */
  method LabelsRoundTrip(version: GameVersion, t: GameType) returns (read: Option<(GameType, GameVersion)>)
    ensures read == Some((t, version))
  {
    var labels := Labels(version, t);
    GameTypeRawValueRoundTrip(t, t.RawValue());
    read := FromLabels(labels);
  }

  /**
    A modded `latest` tag is the name a runtime would get for the loader
    version `latest`, so it collides with a build tag exactly then.
  */
  lemma LatestTagVersusBuildTag(version: GameVersion, t: GameType, loaderVersion: string)
    requires t != Vanilla
    ensures GenerateLatestTag(version, t) == RuntimeName(version.minecraft, t, loaderVersion) <==> loaderVersion == "latest"
  {
    assert GenerateLatestTag(version, t) == RuntimeName(version.minecraft, t, "latest");
    if GenerateLatestTag(version, t) == RuntimeName(version.minecraft, t, loaderVersion) {
      RuntimeNameInjective(version.minecraft, t, "latest", loaderVersion);
    }
  }

  /** Tags of different modded types never collide, whatever the versions. */
  lemma LatestTagNamesType(version: GameVersion, s: GameType, t: GameType)
    requires s != Vanilla && t != Vanilla
    requires GenerateLatestTag(version, s) == GenerateLatestTag(version, t)
    ensures s == t
  {
    var prefix := version.minecraft + "-";
    assert GenerateLatestTag(version, s)[|prefix|..] == s.LatestTag();
    assert GenerateLatestTag(version, t)[|prefix|..] == t.LatestTag();
    LatestTagInjective(s, t);
  }

  // ---------------------------------------------------------------------------
  // Joining helpers

  /** Lines spliced into a joined text as one joined piece come out as lines of their own, between the others. */
  lemma SpliceLines(head: seq<string>, middle: seq<string>, tail: seq<string>)
    requires head != [] && middle != [] && tail != []
    requires forall i :: 0 <= i < |middle| ==> '\n' !in middle[i]
    ensures Lines(Join(head + [Join(middle, "\n")] + tail, "\n")) ==
      Lines(Join(head, "\n")) + middle + Lines(Join(tail, "\n"))
  {
    var joined := Join(middle, "\n");
    JoinAppend(head, [joined] + tail, "\n");
    assert head + [joined] + tail == head + ([joined] + tail);
    JoinAppend([joined], tail, "\n");
    LinesAround(Join(head, "\n"), joined + "\n" + Join(tail, "\n"));
    LinesAround(joined, Join(tail, "\n"));
    assert Join(head, "\n") + "\n" + (joined + "\n" + Join(tail, "\n")) ==
      Join(head, "\n") + "\n" + joined + "\n" + Join(tail, "\n");
    LinesOfJoin(middle);
  }
}
