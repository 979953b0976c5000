/** The platform identifier: from the host's operating system and CPU
    architecture to the tokens used in release asset names, and the archive
    kind that each operating system's asset is packed in. */
module Platform {
  import opened Wrappers

  /** The operating systems the host can report. */
  datatype Os = Linux | Mac | Windows

  /** The CPU architectures the host can report. */
  datatype Arch = Aarch64 | X86 | X8664

  /** The archive kinds the host's download capability can unpack. */
  datatype FileType = Zip | GzipTar | Gzip | Uncompressed

  predicate IsOsToken(s: string) {
    s == "linux" || s == "darwin" || s == "windows"
  }

  predicate IsArchToken(s: string) {
    s == "arm64" || s == "amd64"
  }

  /** Stands for the host crate's debug rendering of an architecture, used
      in the error message; the variant's name is the model's text. */
  function ArchName(arch: Arch): string {
    match arch
    case Aarch64 => "Aarch64"
    case X86 => "X86"
    case X8664 => "X8664"
  }

  /** The platform tokens for the running system, or an error naming the
      architecture when it is not one that release assets are built for. */
  function CurrentPlatform(os: Os, arch: Arch): (r: Result<(string, string)>)
    ensures r.Ok? <==> arch != X86
    ensures r.Ok? ==> IsOsToken(r.value.0) && IsArchToken(r.value.1)
    ensures r.Ok? ==> (r.value.0 == "linux" <==> os == Linux)
    ensures r.Ok? ==> (r.value.0 == "darwin" <==> os == Mac)
    ensures r.Ok? ==> (r.value.0 == "windows" <==> os == Windows)
    ensures r.Ok? ==> (r.value.1 == "arm64" <==> arch == Aarch64)
    ensures r.Ok? ==> (r.value.1 == "amd64" <==> arch == X8664)
    ensures r.Err? ==> r.msg == ArchName(arch) + " is not supported by MPLS"
  {
    var osToken := match os
      case Linux => "linux"
      case Mac => "darwin"
      case Windows => "windows";
    match arch
    case Aarch64 => Ok((osToken, "arm64"))
    case X8664 => Ok((osToken, "amd64"))
    case X86 => Err(ArchName(arch) + " is not supported by MPLS")
  }

  /** Reads an operating-system token back; the partner of CurrentPlatform. */
  function ParseOs(s: string): Option<Os> {
    if s == "linux" then Some(Linux)
    else if s == "darwin" then Some(Mac)
    else if s == "windows" then Some(Windows)
    else None
  }

  /** Reads an architecture token back; the partner of CurrentPlatform. */
  function ParseArch(s: string): Option<Arch> {
    if s == "arm64" then Some(Aarch64)
    else if s == "amd64" then Some(X8664)
    else None
  }

  /** The tokens determine the platform: no two supported platforms share
      a pair of tokens, so asset names of different platforms never clash. */
  lemma PlatformTokensIdentify(os: Os, arch: Arch)
    requires CurrentPlatform(os, arch).Ok?
    ensures ParseOs(CurrentPlatform(os, arch).value.0) == Some(os)
    ensures ParseArch(CurrentPlatform(os, arch).value.1) == Some(arch)
  {
  }

  /** The archive kind of a release asset. The input is an operating-system
      token, so the source's "any other string" arm cannot be reached: that is
      this precondition, which CurrentPlatform's postcondition discharges. */
  function FileTypeFor(os: string): (ft: FileType)
    requires IsOsToken(os)
    ensures ft == Zip <==> os == "windows"
    ensures ft == GzipTar <==> (os == "linux" || os == "darwin")
  {
    if os == "windows" then Zip else GzipTar
  }

  /** The file-name extension of an archive kind. */
  function Extension(ft: FileType): string {
    match ft
    case Zip => "zip"
    case GzipTar => "tar.gz"
    case Gzip => "gz"
    case Uncompressed => ""
  }

  /** Windows assets end in "zip", Linux and macOS assets in "tar.gz". */
  lemma ExtensionForOs(os: string)
    requires IsOsToken(os)
    ensures Extension(FileTypeFor(os)) == (if os == "windows" then "zip" else "tar.gz")
  {
  }
}
