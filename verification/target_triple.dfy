/**
 Translation of Node's `os.type()` and `os.arch()` names into a Rust-style
 target triple, the key under which the platform catalog is looked up
 (`getPlatform` in templates/npm/binary.js). An unrecognised name becomes an
 empty component; the triple is built anyway and simply fails the lookup.
 */
module TargetTriple {
  import opened Results

  const KnownOs: set<string> := {"Windows_NT", "Darwin", "Linux"}
  const KnownArch: set<string> := {"x64", "arm64"}

  /** The triples of the recognised hosts; `TripleTable` lists all six. */
  const KnownTriples: set<string> := set osType, arch | osType in KnownOs && arch in KnownArch :: Triple(osType, arch)

  /** The OS part of the triple: vendor, system and environment. */
  function OsComponent(osType: string): (c: string)
    ensures c == "" <==> osType !in KnownOs
  {
    match osType
    case "Windows_NT" => "pc-windows-msvc"
    case "Darwin" => "apple-darwin"
    case "Linux" => "unknown-linux-gnu"
    case _ => ""
  }

  /** The architecture part of the triple; it never contains a dash. */
  function ArchComponent(arch: string): (c: string)
    ensures c == "" <==> arch !in KnownArch
    ensures '-' !in c
  {
    match arch
    case "x64" => "x86_64"
    case "arm64" => "aarch64"
    case _ => ""
  }

  /** The lookup key: architecture, a dash, then the OS part, whether or not either was recognised. */
  function Triple(osType: string, arch: string): string
  {
    ArchComponent(arch) + "-" + OsComponent(osType)
  }

  /** Inverse of `OsComponent` on the recognised names. */
  function OsOfComponent(c: string): Option<string>
  {
    match c
    case "pc-windows-msvc" => Some("Windows_NT")
    case "apple-darwin" => Some("Darwin")
    case "unknown-linux-gnu" => Some("Linux")
    case _ => None
  }

  /** Inverse of `ArchComponent` on the recognised names. */
  function ArchOfComponent(c: string): Option<string>
  {
    match c
    case "x86_64" => Some("x64")
    case "aarch64" => Some("arm64")
    case _ => None
  }

  /** The index of the first `c` in `s`, or `|s|` when there is none. */
  function FirstIndexOf(s: string, c: char): (i: nat)
    ensures i <= |s|
    ensures i < |s| ==> s[i] == c
    ensures forall j :: 0 <= j < i ==> s[j] != c
  {
    if |s| == 0 || s[0] == c then 0 else 1 + FirstIndexOf(s[1..], c)
  }

  /** Cuts a triple at its first dash into the architecture part and the OS part. */
  function SplitTriple(t: string): (parts: Option<(string, string)>)
    ensures parts.None? <==> '-' !in t
    ensures parts.Some? ==> '-' !in parts.value.0 && t == parts.value.0 + "-" + parts.value.1
  {
    var i := FirstIndexOf(t, '-');
    if i == |t| then None else Some((t[..i], t[i + 1..]))
  }

  /** The raw `(os.type(), os.arch())` pair a well-formed triple came from, if any. */
  function HostOfTriple(t: string): Option<(string, string)>
  {
    match SplitTriple(t)
    case None => None
    case Some((a, o)) =>
      match (OsOfComponent(o), ArchOfComponent(a))
      case (Some(os), Some(arch)) => Some((os, arch))
      case _ => None
  }

  /** The triple always decomposes, at its first dash, into exactly the two mapped components. */
  lemma TripleDecomposes(osType: string, arch: string)
    ensures SplitTriple(Triple(osType, arch)) == Some((ArchComponent(arch), OsComponent(osType)))
  {
    var a, o := ArchComponent(arch), OsComponent(osType);
    var t := Triple(osType, arch);
    assert t[|a|] == '-';
    var i := FirstIndexOf(t, '-');
    assert i == |a|;
    assert t[..i] == a;
    assert t[i + 1..] == o;
  }

  /** A recognised host is recovered from its triple: the mapping loses nothing. */
  lemma HostOfTripleRoundTrip(osType: string, arch: string)
    requires osType in KnownOs && arch in KnownArch
    ensures HostOfTriple(Triple(osType, arch)) == Some((osType, arch))
  {
    TripleDecomposes(osType, arch);
  }

  /** Whatever host `HostOfTriple` reports is recognised and maps back to the same triple. */
  lemma HostOfTripleSound(t: string, osType: string, arch: string)
    requires HostOfTriple(t) == Some((osType, arch))
    ensures osType in KnownOs && arch in KnownArch
    ensures Triple(osType, arch) == t
  {
  }

  /** A host yields one of the six known triples exactly when both its names are recognised. */
  lemma KnownTripleIff(osType: string, arch: string)
    ensures Triple(osType, arch) in KnownTriples <==> osType in KnownOs && arch in KnownArch
  {
    var t := Triple(osType, arch);
    if t in KnownTriples {
      var o, a :| o in KnownOs && a in KnownArch && Triple(o, a) == t;
      TripleDecomposes(o, a);
      TripleDecomposes(osType, arch);
    }
  }

  /** The mapping table for Windows. */
  lemma TripleTableWindows()
    ensures Triple("Windows_NT", "x64") == "x86_64-pc-windows-msvc"
    ensures Triple("Windows_NT", "arm64") == "aarch64-pc-windows-msvc"
  {
  }

  /** The mapping table for macOS. */
  lemma TripleTableDarwin()
    ensures Triple("Darwin", "x64") == "x86_64-apple-darwin"
    ensures Triple("Darwin", "arm64") == "aarch64-apple-darwin"
  {
  }

  /** The mapping table for Linux. */
  lemma TripleTableLinux()
    ensures Triple("Linux", "x64") == "x86_64-unknown-linux-gnu"
    ensures Triple("Linux", "arm64") == "aarch64-unknown-linux-gnu"
  {
  }

  /** An unrecognised name leaves its component empty; nothing fails at this stage. */
  lemma UnrecognisedExamples()
    ensures Triple("Linux", "ia32") == "-unknown-linux-gnu"
    ensures Triple("FreeBSD", "x64") == "x86_64-"
  {
  }
}
