/**
  The fixed layout every image shares (`MinecraftRuntimeDefaults`): where the
  server lives, the start-script name, the port, the default volumes and the
  server properties the start script lets the environment override.
*/
module Defaults {

  const HomeDirectory: string := "/minecraft"

  const StartupScriptName: string := "start_server.bash"

  const ConfigurationsDirectory: string := HomeDirectory + "/configurations"

  const ServerPort: nat := 25565

  const MappedVolumes: seq<string> := ["world", "configurations"]

  /**
    The names are listed in four consecutive groups, so that facts about each
    group can be checked on its own.
  */
  const ServerProperties: seq<string> :=
    PropertiesPart1 + PropertiesPart2 + PropertiesPart3 + PropertiesPart4

  const PropertiesPart1: seq<string> := [
    "allow-flight",
    "allow-nether",
    "difficulty",
    "enable-command-block",
    "enable-status",
    "enable-query",
    "enforce-secure-profile",
    "gamemode"
  ]

  const PropertiesPart2: seq<string> := [
    "generate-structures",
    "hardcore",
    "hide-online-players",
    "level-seed",
    "level-type",
    "max-players",
    "max-tick-time",
    "max-world-size"
  ]

  const PropertiesPart3: seq<string> := [
    "motd",
    "online-mode",
    "op-permission-level",
    "player-idle-timeout",
    "pvp",
    "resource-pack",
    "resource-pack-prompt",
    "require-resource-pack"
  ]

  const PropertiesPart4: seq<string> := [
    "simulation-distance",
    "spawn-animals",
    "spawn-monsters",
    "spawn-npcs",
    "spawn-protection",
    "view-distance",
    "white-list"
  ]

  /** A server-property name: lower-case ASCII letters and dashes. */
  predicate IsPropertyName(name: string) {
    forall i :: 0 <= i < |name| ==> ('a' <= name[i] <= 'z' || name[i] == '-')
  }

  predicate Distinct<T(==)>(s: seq<T>) {
    forall i, j :: 0 <= i < j < |s| ==> s[i] != s[j]
  }

  predicate Disjoint(a: seq<string>, b: seq<string>) {
    forall i, j :: 0 <= i < |a| && 0 <= j < |b| ==> a[i] != b[j]
  }

  lemma DistinctConcat(a: seq<string>, b: seq<string>)
    requires Distinct(a) && Distinct(b) && Disjoint(a, b)
    ensures Distinct(a + b)
  {
    forall i, j | 0 <= i < j < |a + b|
      ensures (a + b)[i] != (a + b)[j]
    {
      if j < |a| {
        assert (a + b)[i] == a[i] && (a + b)[j] == a[j];
      } else if i < |a| {
        assert (a + b)[i] == a[i] && (a + b)[j] == b[j - |a|];
      } else {
        assert (a + b)[i] == b[i - |a|] && (a + b)[j] == b[j - |a|];
      }
    }
  }

  lemma DisjointConcat(a: seq<string>, b: seq<string>, c: seq<string>)
    requires Disjoint(a, c) && Disjoint(b, c)
    ensures Disjoint(a + b, c)
  {
    forall i, j | 0 <= i < |a + b| && 0 <= j < |c|
      ensures (a + b)[i] != c[j]
    {
      if i < |a| {
        assert (a + b)[i] == a[i];
      } else {
        assert (a + b)[i] == b[i - |a|];
      }
    }
  }

  lemma PartsDistinct()
    ensures Distinct(PropertiesPart1) && Distinct(PropertiesPart2)
    ensures Distinct(PropertiesPart3) && Distinct(PropertiesPart4)
  {
  }

  lemma PartsDisjointFromPart4()
    ensures Disjoint(PropertiesPart1, PropertiesPart4)
    ensures Disjoint(PropertiesPart2, PropertiesPart4)
    ensures Disjoint(PropertiesPart3, PropertiesPart4)
  {
  }

  lemma PartsDisjointFromPart3()
    ensures Disjoint(PropertiesPart1, PropertiesPart3)
    ensures Disjoint(PropertiesPart2, PropertiesPart3)
  {
  }

  lemma Part1DisjointFromPart2()
    ensures Disjoint(PropertiesPart1, PropertiesPart2)
  {
  }

  lemma Part1Named()
    ensures forall p :: p in PropertiesPart1 ==> p != [] && IsPropertyName(p)
  {
  }

  lemma Part2Named()
    ensures forall p :: p in PropertiesPart2 ==> p != [] && IsPropertyName(p)
  {
  }

  lemma Part3Named()
    ensures forall p :: p in PropertiesPart3 ==> p != [] && IsPropertyName(p)
  {
  }

  lemma Part4Named()
    ensures forall p :: p in PropertiesPart4 ==> p != [] && IsPropertyName(p)
  {
  }

  /** The configurations live under the home directory. */
  lemma ConfigurationsUnderHome()
    ensures ConfigurationsDirectory == "/minecraft/configurations"
    ensures ConfigurationsDirectory[..|HomeDirectory|] == HomeDirectory
  {
  }

  /** No property appears twice, and each is a plain dashed lower-case name. */
  lemma ServerPropertiesWellFormed()
    ensures |ServerProperties| == 31
    ensures Distinct(ServerProperties)
    ensures forall p :: p in ServerProperties ==> p != [] && IsPropertyName(p)
  {
    PartsDistinct();
    Part1DisjointFromPart2();
    PartsDisjointFromPart3();
    PartsDisjointFromPart4();
    var p12 := PropertiesPart1 + PropertiesPart2;
    var p123 := p12 + PropertiesPart3;
    DistinctConcat(PropertiesPart1, PropertiesPart2);
    DisjointConcat(PropertiesPart1, PropertiesPart2, PropertiesPart3);
    DistinctConcat(p12, PropertiesPart3);
    DisjointConcat(PropertiesPart1, PropertiesPart2, PropertiesPart4);
    DisjointConcat(p12, PropertiesPart3, PropertiesPart4);
    DistinctConcat(p123, PropertiesPart4);
    Part1Named();
    Part2Named();
    Part3Named();
    Part4Named();
  }
}
