/**
 `getPlatform` of templates/npm/binary.js: build the target triple, look it up
 in the injected platform catalog, and on Linux pass the glibc gate. Every
 call of the source's `error` helper, which prints and exits the process,
 is an `Err` here.
 */
module Resolver {
  import opened Results
  import TargetTriple
  import Glibc

  /** What the process reads from its environment: `os.type()`, `os.arch()` and the two libc queries. */
  datatype Host = Host(osType: string, arch: string, nonGlibc: bool, libcVersion: string)

  /** A catalog entry: the archive to download and the binaries it holds. */
  datatype Platform = Platform(artifactName: string, bins: seq<string>)

  /** Values injected into the script when the package is built. */
  datatype Config = Config(appName: string, downloadUrl: string, platforms: map<string, Platform>)

  /** The fatal conditions; each ends the process with exit status 1. */
  datatype Failure =
    | UnsupportedPlatform(osType: string, arch: string)
    | NonGlibc
    | GlibcTooOld(found: string)
    | MultipleBinaries

  /** The catalog key of `host`. */
  function KeyOf(host: Host): string
  {
    TargetTriple.Triple(host.osType, host.arch)
  }

  /** Whether the glibc gate lets `host` through: it is only consulted for the exact OS name "Linux". */
  predicate LibcAccepted(host: Host, rule: Glibc.Rule)
  {
    host.osType == "Linux" ==> !host.nonGlibc && !Glibc.TooOld(rule, Glibc.ParseVersion(host.libcVersion))
  }

  /** `getPlatform()`: the catalog entry of the host, or the first failure met. */
  function GetPlatform(host: Host, cfg: Config, rule: Glibc.Rule): (r: Result<Platform, Failure>)
    ensures r.Ok? <==> KeyOf(host) in cfg.platforms && LibcAccepted(host, rule)
    ensures r.Ok? ==> r.value in cfg.platforms.Values
    ensures r.Err? ==> !r.error.MultipleBinaries?
  {
    var triple := TargetTriple.Triple(host.osType, host.arch);
    if triple !in cfg.platforms then
      Err(UnsupportedPlatform(host.osType, host.arch))
    else if host.osType == "Linux" && host.nonGlibc then
      Err(NonGlibc)
    else if host.osType == "Linux" && Glibc.TooOld(rule, Glibc.ParseVersion(host.libcVersion)) then
      Err(GlibcTooOld(host.libcVersion))
    else
      Ok(cfg.platforms[triple])
  }

  /** On success the entry is the one stored under the host's triple. */
  lemma GetPlatformReturnsEntry(host: Host, cfg: Config, rule: Glibc.Rule)
    requires GetPlatform(host, cfg, rule).Ok?
    ensures KeyOf(host) in cfg.platforms
    ensures GetPlatform(host, cfg, rule).value == cfg.platforms[KeyOf(host)]
  {
  }

  /** A missing catalog entry is reported before any libc question, even on a musl host. */
  lemma MissingEntryWins(host: Host, cfg: Config, rule: Glibc.Rule)
    requires KeyOf(host) !in cfg.platforms
    ensures GetPlatform(host, cfg, rule) == Err(UnsupportedPlatform(host.osType, host.arch))
  {
  }

  /** Off Linux the libc answers and the comparison rule play no part. */
  lemma NoGateOffLinux(host: Host, cfg: Config, rule: Glibc.Rule)
    requires host.osType != "Linux"
    ensures GetPlatform(host, cfg, rule).Ok? <==> KeyOf(host) in cfg.platforms
    ensures forall nonGlibc: bool, version: string, rule': Glibc.Rule ::
      GetPlatform(host.(nonGlibc := nonGlibc, libcVersion := version), cfg, rule') == GetPlatform(host, cfg, rule)
  {
  }

  /** On Linux with a catalog entry, a non-glibc C library fails whatever its version. */
  lemma NonGlibcFails(host: Host, cfg: Config, rule: Glibc.Rule)
    requires host.osType == "Linux" && KeyOf(host) in cfg.platforms && host.nonGlibc
    ensures GetPlatform(host, cfg, rule) == Err(NonGlibc)
  {
  }

  /** On glibc Linux with a catalog entry, the version decides: refused exactly when the gate says too old. */
  lemma GlibcVersionDecides(host: Host, cfg: Config, rule: Glibc.Rule)
    requires host.osType == "Linux" && KeyOf(host) in cfg.platforms && !host.nonGlibc
    ensures GetPlatform(host, cfg, rule).Err? <==> Glibc.TooOld(rule, Glibc.ParseVersion(host.libcVersion))
    ensures GetPlatform(host, cfg, rule).Err? ==> GetPlatform(host, cfg, rule).error == GlibcTooOld(host.libcVersion)
  {
  }

  /**
   When no catalog key starts or ends with a dash, a host with an
   unrecognised OS or architecture is always unsupported: its key has an
   empty component, so it starts or ends with one.
   */
  lemma UnrecognisedHostUnsupported(host: Host, cfg: Config, rule: Glibc.Rule)
    requires forall k :: k in cfg.platforms ==> |k| > 0 && k[0] != '-' && k[|k| - 1] != '-'
    requires host.osType !in TargetTriple.KnownOs || host.arch !in TargetTriple.KnownArch
    ensures GetPlatform(host, cfg, rule) == Err(UnsupportedPlatform(host.osType, host.arch))
  {
    var key := KeyOf(host);
    if host.arch !in TargetTriple.KnownArch {
      assert key[0] == '-';
    } else {
      assert key[|key| - 1] == '-';
    }
  }

  /** The gate is keyed on the raw OS name "Linux", which is also the only name mapped to the Linux triple part. */
  lemma LinuxGateMatchesLinuxTriple(host: Host)
    ensures host.osType == "Linux" <==> TargetTriple.OsComponent(host.osType) == "unknown-linux-gnu"
  {
  }

  /**
   The catalog is a JavaScript object, so a key that names an inherited
   property would be found too. Every key looked up contains a dash, which
   no property of `Object.prototype` does.
   */
  lemma KeyHasDash(host: Host)
    ensures '-' in KeyOf(host)
  {
  }

  /** Two hosts that agree on everything the resolver reads get the same answer. */
  lemma DependsOnlyOnReads(h1: Host, h2: Host, cfg1: Config, cfg2: Config, rule: Glibc.Rule)
    requires h1.osType == h2.osType && h1.arch == h2.arch
    requires h1.osType == "Linux" ==> h1.nonGlibc == h2.nonGlibc
    requires h1.osType == "Linux" && !h1.nonGlibc ==> h1.libcVersion == h2.libcVersion
    requires cfg1.platforms == cfg2.platforms
    ensures GetPlatform(h1, cfg1, rule) == GetPlatform(h2, cfg2, rule)
  {
  }

  /** A catalog holding only 64-bit Linux. */
  function LinuxOnly(p: Platform): Config
  {
    Config("app", "https://example.com/dl", map["x86_64-unknown-linux-gnu" := p])
  }

  /** On a glibc Linux host the catalog lists, the version alone decides between the entry and `GlibcTooOld`. */
  lemma LinuxOnlyVersionDecides(p: Platform, version: string, rule: Glibc.Rule)
    ensures GetPlatform(Host("Linux", "x64", false, version), LinuxOnly(p), rule)
      == if Glibc.TooOld(rule, Glibc.ParseVersion(version)) then Err(GlibcTooOld(version)) else Ok(p)
  {
    TargetTriple.TripleTableLinux();
  }

  /** Version 3.0 is refused as written and accepted by the corrected comparison. */
  lemma LinuxThreeZero(p: Platform)
    ensures GetPlatform(Host("Linux", "x64", false, "3.0"), LinuxOnly(p), Glibc.Naive) == Err(GlibcTooOld("3.0"))
    ensures GetPlatform(Host("Linux", "x64", false, "3.0"), LinuxOnly(p), Glibc.Tuple) == Ok(p)
  {
    LinuxOnlyVersionDecides(p, "3.0", Glibc.Naive);
    LinuxOnlyVersionDecides(p, "3.0", Glibc.Tuple);
    Glibc.NaiveGateRefusesNewerMajor();
    assert Glibc.Format(3, 0) == "3.0";
  }

  /** A musl Linux host fails on its C library, but an unknown architecture fails first. */
  lemma LinuxFailureExamples(p: Platform)
    ensures GetPlatform(Host("Linux", "x64", true, "2.31"), LinuxOnly(p), Glibc.Naive) == Err(NonGlibc)
    ensures GetPlatform(Host("Linux", "ia32", true, "2.31"), LinuxOnly(p), Glibc.Naive) == Err(UnsupportedPlatform("Linux", "ia32"))
  {
    TargetTriple.TripleTableLinux();
    TargetTriple.UnrecognisedExamples();
  }
}
