/**
 `getBinary`, `install` and `run` of templates/npm/binary.js: pick the one
 binary of the resolved platform, build its download URL, and hand both to
 the external installer or launcher.
 */
module Installer {
  import opened Results
  import opened Resolver
  import Glibc

  /**
   What the `Binary` constructor receives: the binary's name and the URL of
   its archive. `bins[0]` of an empty list is `undefined`, written `None`.
   */
  datatype Download = Download(binaryName: Option<string>, url: string)

  /** The call handed to the external collaborator. */
  datatype Handoff =
    | InstallBinary(download: Download, proxyFor: string, suppressLogs: bool)
    | RunBinary(download: Download)

  /** The artifact's URL: the base URL, a slash, then the artifact name. */
  function ArtifactUrl(base: string, artifactName: string): (url: string)
    ensures |url| == |base| + 1 + |artifactName|
    ensures url[..|base|] == base && url[|base|] == '/' && url[|base| + 1..] == artifactName
  {
    base + "/" + artifactName
  }

  /** With the base fixed, the URL determines the artifact name. */
  lemma ArtifactUrlInjective(base: string, a1: string, a2: string)
    requires ArtifactUrl(base, a1) == ArtifactUrl(base, a2)
    ensures a1 == a2
  {
  }

  /** The selection step of `getBinary` for an already resolved platform. */
  function Locate(p: Platform, base: string): (r: Result<Download, Failure>)
    ensures r.Err? <==> |p.bins| > 1
    ensures r.Err? ==> r.error == MultipleBinaries
    ensures r.Ok? ==> r.value.url == ArtifactUrl(base, p.artifactName)
    ensures r.Ok? ==> (r.value.binaryName.Some? <==> |p.bins| == 1)
    ensures r.Ok? && r.value.binaryName.Some? ==> p.bins == [r.value.binaryName.value]
  {
    var url := ArtifactUrl(base, p.artifactName);
    if |p.bins| > 1 then Err(MultipleBinaries)
    else if |p.bins| == 0 then Ok(Download(None, url))
    else Ok(Download(Some(p.bins[0]), url))
  }

  /** `getBinary()`: resolve the host, then select its binary. */
  function GetBinary(host: Host, cfg: Config, rule: Glibc.Rule): (r: Result<Download, Failure>)
    ensures GetPlatform(host, cfg, rule).Err? ==> r == Err(GetPlatform(host, cfg, rule).error)
    ensures GetPlatform(host, cfg, rule).Ok? ==> r == Locate(GetPlatform(host, cfg, rule).value, cfg.downloadUrl)
  {
    match GetPlatform(host, cfg, rule)
    case Err(e) => Err(e)
    case Ok(p) => Locate(p, cfg.downloadUrl)
  }

  /** `install(suppressLogs)`: the proxy is configured for the binary's own URL. */
  function Install(host: Host, cfg: Config, rule: Glibc.Rule, suppressLogs: bool): (r: Result<Handoff, Failure>)
    ensures r.Ok? <==> GetBinary(host, cfg, rule).Ok?
    ensures r.Err? ==> r.error == GetBinary(host, cfg, rule).error
    ensures r.Ok? ==> r.value.InstallBinary? && r.value.download == GetBinary(host, cfg, rule).value
    ensures r.Ok? ==> r.value.proxyFor == r.value.download.url && r.value.suppressLogs == suppressLogs
  {
    match GetBinary(host, cfg, rule)
    case Err(e) => Err(e)
    case Ok(d) => Ok(InstallBinary(d, d.url, suppressLogs))
  }

  /** `run()`: launch the binary `getBinary` selects. */
  function Run(host: Host, cfg: Config, rule: Glibc.Rule): (r: Result<Handoff, Failure>)
    ensures r.Ok? <==> GetBinary(host, cfg, rule).Ok?
    ensures r.Err? ==> r.error == GetBinary(host, cfg, rule).error
    ensures r.Ok? ==> r == Ok(RunBinary(GetBinary(host, cfg, rule).value))
  {
    match GetBinary(host, cfg, rule)
    case Err(e) => Err(e)
    case Ok(d) => Ok(RunBinary(d))
  }

  /** `MultipleBinaries` is reported only for a host that resolved, and only when its entry lists several binaries. */
  lemma MultipleBinariesIff(host: Host, cfg: Config, rule: Glibc.Rule)
    ensures GetBinary(host, cfg, rule) == Err(MultipleBinaries)
      <==> KeyOf(host) in cfg.platforms && LibcAccepted(host, rule) && |cfg.platforms[KeyOf(host)].bins| > 1
  {
  }

  /** A successful selection downloads the catalog entry's archive from under the configured base URL. */
  lemma GetBinaryDownloadsEntry(host: Host, cfg: Config, rule: Glibc.Rule)
    requires GetBinary(host, cfg, rule).Ok?
    ensures KeyOf(host) in cfg.platforms
    ensures var entry := cfg.platforms[KeyOf(host)];
      && |entry.bins| <= 1
      && GetBinary(host, cfg, rule).value.url == ArtifactUrl(cfg.downloadUrl, entry.artifactName)
      && GetBinary(host, cfg, rule).value.binaryName == (if entry.bins == [] then None else Some(entry.bins[0]))
  {
  }

  /** One binary "foo" in "foo-x86_64.tar.gz" under "https://example.com/dl". */
  lemma LocateExample()
    ensures Locate(Platform("foo-x86_64.tar.gz", ["foo"]), "https://example.com/dl")
      == Ok(Download(Some("foo"), "https://example.com/dl/foo-x86_64.tar.gz"))
    ensures Locate(Platform("foo-x86_64.tar.gz", ["foo", "bar"]), "https://example.com/dl") == Err(MultipleBinaries)
    ensures Locate(Platform("foo-x86_64.tar.gz", []), "https://example.com/dl")
      == Ok(Download(None, "https://example.com/dl/foo-x86_64.tar.gz"))
  {
    assert ArtifactUrl("https://example.com/dl", "foo-x86_64.tar.gz") == "https://example.com/dl/foo-x86_64.tar.gz";
  }
}
