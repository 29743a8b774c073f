# cargo-dist npm installer: platform resolution

A Dafny model of the decision logic in the npm installer script that
cargo-dist generates (`templates/npm/binary.js`). When the package is
installed or its binary is run, the script:

1. maps Node's `os.type()` and `os.arch()` onto a Rust target triple
   (`x86_64-unknown-linux-gnu`, `aarch64-apple-darwin`, …); an unrecognised
   name becomes an empty component and the triple is built anyway;
2. looks the triple up in the platform catalog injected at build time;
3. on Linux only, refuses a non-glibc C library and a glibc older than 2.17;
4. refuses a platform entry with more than one binary, and otherwise builds
   the download URL as base URL, `/`, artifact name;
5. hands the binary name and URL to the external installer or launcher.

Each call of the script's `error` helper, which prints and exits with status 1,
is a `Failure` value: `UnsupportedPlatform`, `NonGlibc`, `GlibcTooOld` or
`MultipleBinaries`.

Modules:

- `Results`: `Option` and `Result`.
- `Strings`: JavaScript's `split` on one character, and the `Number` coercion
  that `<` applies to a version component.
- `TargetTriple`: the OS and architecture tables and the triple.
- `Glibc`: version parsing and the gate, in two forms. `Glibc.Naive` is the
  comparison as written. `Glibc.Tuple` is the corrected one (see Findings).
- `Resolver`: the host, catalog and configuration data, and `getPlatform`.
- `Installer`: `getBinary`, `install` and `run`.

Inputs read from the environment are fields of `Resolver.Host`:
`os.type()`, `os.arch()`, `isNonGlibcLinuxSync()` and `versionSync()`. The
values injected at build time are fields of `Resolver.Config`: the app name,
the download base URL and the catalog. The functions that model the script
take a `Glibc.Rule`. With `Glibc.Naive` they do exactly what the script does.

The model follows the code as written, including where it departs from its evident intent:

- Version 3.0 is refused, because its minor component 0 is below 17.
- An entry with no binaries is not refused. Its binary name is `undefined`, written `None`.
- A version with no minor component, such as "2", passes, because `undefined < 17` is false.
- A non-glibc library and a too-old glibc are two distinct failures.

## Model

| member | source | states |
|---|---|---|
| Strings.Split | cargo-dist/templates/npm/binary.js:66 | `split(".")` returns at least one piece, no piece holds the separator, and joining the pieces gives the string back |
| Strings.SplitJoin | cargo-dist/templates/npm/binary.js:66 | splitting a join of separator-free pieces gives the pieces back |
| Strings.ToNumber | cargo-dist/templates/npm/binary.js:71-73 | a component coerces to a number exactly when it is all digits; the empty string coerces to 0 |
| Strings.ToNumberDecimal | cargo-dist/templates/npm/binary.js:71-73 | coercing the decimal spelling of n gives n |
| Glibc.ParseFormat | cargo-dist/templates/npm/binary.js:65-68 | "major.minor" is read back as the two numbers |
| Glibc.ParseIgnoresRest | cargo-dist/templates/npm/binary.js:66-68 | anything after the second component, such as a patch level, is ignored |
| Glibc.ParseBareMajor | cargo-dist/templates/npm/binary.js:66-68 | a version with no dot has an undefined minor component |
| Glibc.NaiveGate | cargo-dist/templates/npm/binary.js:69-74 | as written, a version is refused exactly when major < 2 or minor < 17, each on its own |
| Glibc.TupleGate | cargo-dist/templates/npm/binary.js:76 | the corrected gate refuses exactly the versions that sort before 2.17 |
| Glibc.TupleGateMonotone | cargo-dist/templates/npm/binary.js:76 | under the corrected gate, every version newer than an accepted one is accepted |
| Glibc.NaiveVersusTuple | cargo-dist/templates/npm/binary.js:71-74 | the as-written gate refuses all the corrected gate refuses; the extra refusals are exactly the versions whose major is above 2 or non-numeric and whose minor is numeric and below 17 |
| Glibc.NaiveGateRefusesNewerMajor | cargo-dist/templates/npm/binary.js:71-78 | as written, 2.17 passes and the newer 3.0 is refused; the corrected gate accepts 3.0 |
| Glibc.GateExamples | cargo-dist/templates/npm/binary.js:65-78 | 2.17 and "2" pass; 2.16, 3.0, 1.20 and "" are refused |
| TargetTriple.OsComponent | cargo-dist/templates/npm/binary.js:26-37 | the OS part is empty exactly when the OS name is not Windows_NT, Darwin or Linux |
| TargetTriple.ArchComponent | cargo-dist/templates/npm/binary.js:39-47 | the architecture part is empty exactly when the name is not x64 or arm64, and never holds a dash |
| TargetTriple.SplitTriple | cargo-dist/templates/npm/binary.js:51 | cutting at the first dash gives a dash-free head and a tail that rebuild the triple |
| TargetTriple.TripleDecomposes | cargo-dist/templates/npm/binary.js:49-51 | every triple, recognised or not, is the architecture part, a dash, then the OS part |
| TargetTriple.HostOfTripleRoundTrip | cargo-dist/templates/npm/binary.js:26-51 | a recognised host is recovered from its triple |
| TargetTriple.HostOfTripleSound | cargo-dist/templates/npm/binary.js:26-51 | a host recovered from a triple is recognised and maps back to that triple |
| TargetTriple.KnownTripleIff | cargo-dist/templates/npm/binary.js:26-51 | a host yields one of the six known triples exactly when both its names are recognised |
| TargetTriple.TripleTableWindows | cargo-dist/templates/npm/binary.js:28-51 | Windows_NT with x64 and arm64 gives the two `pc-windows-msvc` triples |
| TargetTriple.TripleTableDarwin | cargo-dist/templates/npm/binary.js:31-51 | Darwin with x64 and arm64 gives the two `apple-darwin` triples |
| TargetTriple.TripleTableLinux | cargo-dist/templates/npm/binary.js:34-51 | Linux with x64 and arm64 gives the two `unknown-linux-gnu` triples |
| TargetTriple.UnrecognisedExamples | cargo-dist/templates/npm/binary.js:26-51 | (Linux, ia32) gives `-unknown-linux-gnu` and (FreeBSD, x64) gives `x86_64-` |
| Resolver.GetPlatform | cargo-dist/templates/npm/binary.js:20-83 | success exactly when the triple is in the catalog and, on Linux, glibc passes; the result is a catalog entry; it never reports multiple binaries |
| Resolver.GetPlatformReturnsEntry | cargo-dist/templates/npm/binary.js:52-82 | on success the result is the entry stored under the host's triple |
| Resolver.MissingEntryWins | cargo-dist/templates/npm/binary.js:52-61 | a triple missing from the catalog fails as unsupported before any libc check |
| Resolver.NoGateOffLinux | cargo-dist/templates/npm/binary.js:61-82 | off Linux, success is exactly catalog membership, and the libc answers and rule change nothing |
| Resolver.NonGlibcFails | cargo-dist/templates/npm/binary.js:61-63 | on listed Linux, a non-glibc library fails whatever the version |
| Resolver.GlibcVersionDecides | cargo-dist/templates/npm/binary.js:64-79 | on listed glibc Linux, failure happens exactly when the gate calls the version too old, and it reports that version |
| Resolver.UnrecognisedHostUnsupported | cargo-dist/templates/npm/binary.js:49-58 | with any catalog whose keys neither start nor end with a dash (musl and 32-bit triples included), an unrecognised OS or architecture is unsupported |
| Resolver.LinuxGateMatchesLinuxTriple | cargo-dist/templates/npm/binary.js:34-61 | the gate's test on the OS name "Linux" is the same as the triple having the Linux OS part |
| Resolver.KeyHasDash | cargo-dist/templates/npm/binary.js:51-52 | every looked-up key holds a dash, so no inherited object property can match it |
| Resolver.DependsOnlyOnReads | cargo-dist/templates/npm/binary.js:20-83 | hosts agreeing on what the resolver reads, with the same catalog, get the same answer |
| Resolver.LinuxOnlyVersionDecides | cargo-dist/templates/npm/binary.js:61-82 | on listed glibc Linux, the result is the entry or `GlibcTooOld` carrying the version, by the gate alone |
| Resolver.LinuxThreeZero | cargo-dist/templates/npm/binary.js:71-78 | a glibc 3.0 host is refused as written and accepted by the corrected gate |
| Resolver.LinuxFailureExamples | cargo-dist/templates/npm/binary.js:52-63 | a musl x64 Linux host fails as non-glibc; a musl ia32 host fails as unsupported first |
| Installer.ArtifactUrl | cargo-dist/templates/npm/binary.js:87 | the URL starts with the base, then a slash, then ends with the artifact name |
| Installer.ArtifactUrlInjective | cargo-dist/templates/npm/binary.js:87 | for a fixed base, the URL determines the artifact name |
| Installer.Locate | cargo-dist/templates/npm/binary.js:87-95 | fails exactly when there is more than one binary; otherwise the URL is the artifact URL and the name is the only binary, or undefined for none |
| Installer.GetBinary | cargo-dist/templates/npm/binary.js:85-96 | resolution failures pass through unchanged; a resolved platform goes through selection |
| Installer.Install | cargo-dist/templates/npm/binary.js:98-103 | installs exactly when `getBinary` succeeds, with the proxy set up for the binary's own URL and the logging flag passed on |
| Installer.Run | cargo-dist/templates/npm/binary.js:105-108 | launches exactly when `getBinary` succeeds, with the binary it selected |
| Installer.MultipleBinariesIff | cargo-dist/templates/npm/binary.js:85-92 | the multiple-binaries failure occurs exactly for a resolved host whose entry lists more than one binary |
| Installer.GetBinaryDownloadsEntry | cargo-dist/templates/npm/binary.js:85-95 | a successful selection downloads the host's catalog entry from under the base URL |
| Installer.LocateExample | cargo-dist/templates/npm/binary.js:87-95 | one binary "foo" gives `https://example.com/dl/foo-x86_64.tar.gz`; two binaries fail; none gives an undefined name |

## Left out

- The `binary-install` package's `Binary` constructor, `install` and `run`: they download, extract and launch the binary. The model stops at the `Handoff` value passed to them.
- `configureProxy` from `axios-proxy-builder` is a network concern. The model records only the URL it is called with.
- `os.type()`, `os.arch()`, `isNonGlibcLinuxSync()` and `versionSync()` are plain fields of `Resolver.Host`. A `versionSync()` that returns `null`, which makes `split` throw, is not modelled.
- `console.error`, `process.exit` and the wording of the messages are left out. Only the failure kind and the values it carries are kept.
- `package.json`, `console.table` and the build-time placeholders are left out. The app name, base URL and catalog are fields of `Resolver.Config`.
- Strings.ToNumber: only covers the empty string and strings of decimal digits. JavaScript also trims whitespace and accepts signs, hexadecimal, exponents and `Infinity`. The model reads those as `NaN`. It does not model double precision either. Neither matters for `versionSync()` output, which is dotted digits.
- The catalog lookup is a Dafny `map` lookup, not a JavaScript property lookup. `Resolver.KeyHasDash` explains why the two agree.

## Findings

| source | as written | input that shows it | evidently intended | confidence | as-written member | corrected member |
|---|---|---|---|---|---|---|
| cargo-dist/templates/npm/binary.js:71-74 | `major < 2 \|\| minor < 17`, each component compared on its own | glibc "3.0", or any version with major above 2 and minor below 17 | refuse only versions that sort before 2.17, as the message "needs glibc >= 2.17" says | not executed; high (no glibc 3 exists yet) | Glibc.NaiveGateRefusesNewerMajor | Glibc.TupleGateMonotone |

`Glibc.Rule` selects the comparison throughout `Resolver` and `Installer`. `Glibc.Naive` is the code as written. `Glibc.Tuple` is the corrected definition. Every general lemma there holds for both.
