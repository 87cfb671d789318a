/**
  The Java runtimes an image can be built with (`JavaVersion`): the major
  version number each stands for and the Alpine package that installs it.
*/
module JavaVersion {
  import opened Wrappers
  import opened Text

  datatype JavaVersion = Java7 | Java8 | Java11 | Java16 | Java17 {
    function RawValue(): nat {
      match this
      case Java7 => 7
      case Java8 => 8
      case Java11 => 11
      case Java16 => 16
      case Java17 => 17
    }

    /** Name of the Alpine package that installs this runtime. */
    function PackageName(): string {
      match this
      case Java7 => "openjdk7-jre"
      case Java8 => "openjdk8-jre"
      case Java11 => "openjdk11-jre-headless"
      case Java16 => "openjdk16-jre-headless"
      case Java17 => "openjdk17-jre-headless"
    }

    function Description(): string {
      "Java " + NatToString(RawValue())
    }
  }

  /** The runtime used when a Minecraft version recommends none. */
  const Latest: JavaVersion := Java17

  /** `JavaVersion(rawValue:)`: only the five known major versions are accepted. */
  function FromRawValue(raw: nat): (v: Option<JavaVersion>)
    ensures v.Some? ==> v.value.RawValue() == raw
  {
    if raw == 7 then Some(Java7)
    else if raw == 8 then Some(Java8)
    else if raw == 11 then Some(Java11)
    else if raw == 16 then Some(Java16)
    else if raw == 17 then Some(Java17)
    else None
  }

  /** Reads the runtime back from its package name. */
  function FromPackageName(name: string): Option<JavaVersion> {
    if name == "openjdk7-jre" then Some(Java7)
    else if name == "openjdk8-jre" then Some(Java8)
    else if name == "openjdk11-jre-headless" then Some(Java11)
    else if name == "openjdk16-jre-headless" then Some(Java16)
    else if name == "openjdk17-jre-headless" then Some(Java17)
    else None
  }

  /** Raw values read back, and exactly the five known numbers are accepted. */
  lemma RawValueRoundTrip(v: JavaVersion, raw: nat)
    ensures FromRawValue(v.RawValue()) == Some(v)
    ensures FromRawValue(raw).Some? <==> raw in {7, 8, 11, 16, 17}
  {
  }

  /** Each runtime has its own package, so the package name identifies the runtime. */
  lemma PackageNameInjective(v: JavaVersion, w: JavaVersion)
    ensures FromPackageName(v.PackageName()) == Some(v)
    ensures v.PackageName() == w.PackageName() ==> v == w
  {
  }

  /** Java 7 and 8 install the full JRE; the later ones the headless JRE. */
  lemma HeadlessFromJava11(v: JavaVersion)
    ensures HasSuffix(v.PackageName(), "-jre-headless") <==> v.RawValue() >= 11
    ensures v.RawValue() < 11 ==> HasSuffix(v.PackageName(), "-jre")
  {
    var p := v.PackageName();
    if v.RawValue() < 11 {
      assert p[|p| - 4..] == "-jre";
    } else {
      assert p[|p| - 13..] == "-jre-headless";
    }
  }

  /** The description spells out the major version. */
  lemma DescriptionNamesRawValue(v: JavaVersion)
    ensures v.Description() == "Java " + NatToString(v.RawValue())
    ensures ParseUInt(v.Description()[5..]) == Some(v.RawValue())
  {
    ParseNatToString(v.RawValue());
    assert v.Description()[5..] == NatToString(v.RawValue());
  }
}
