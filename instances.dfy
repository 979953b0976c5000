/** A worked instance of the naming rules, and how each installation
    directory in a listing adds to what the offline path collects: the
    platform's own adds its triple, another platform's adds nothing; and the
    selection among 1.2.0 and 1.3.0 for linux/amd64 beside 1.3.0 for
    darwin/amd64. */
module Instances {
  import opened Wrappers
  import opened AssetNames
  import opened DirNames
  import opened Offline
  import opened Platform
  import opened Resolver

  /** A worked instance: release "v1.2.3" on 64-bit x86 Linux. */
  lemma LinuxAmd64Example()
    ensures ArchivedName(VersionNumber("v1.2.3"), "linux", "amd64", Extension(FileTypeFor("linux"))) == "mpls_1.2.3_linux_amd64.tar.gz"
    ensures ExecutablePath(UnarchivedName(VersionNumber("v1.2.3"), "linux", "amd64")) == "mpls_1.2.3_linux_amd64/mpls"
  {
    assert VersionNumber("v1.2.3") == "1.2.3";
    assert UnarchivedName("1.2.3", "linux", "amd64") == "mpls_1.2.3_linux_amd64";
    ExtensionForOs("linux");
    ArchivedExtendsUnarchived("1.2.3", "linux", "amd64", "tar.gz");
  }

  /** An installation directory of the platform adds its triple at the end. */
  lemma OwnInstallationCollected(listing: seq<DirEntry>, t: Triple, os: string, arch: string)
    ensures Collected(listing + [DirEntry(FormatDirName(t, os, arch), true)], os, arch)
         == Collected(listing, os, arch) + [t]
  {
    FormatParseRoundTrip(t, os, arch);
    CollectedSnoc(listing, DirEntry(FormatDirName(t, os, arch), true), os, arch);
  }

  /** An installation directory of another platform adds nothing, whatever
      its version. */
  lemma ForeignInstallationSkipped(listing: seq<DirEntry>, t: Triple, os: string, arch: string, os2: string, arch2: string)
    requires NoUnderscore(os) && NoUnderscore(os2) && NoUnderscore(arch) && NoUnderscore(arch2)
    requires os != os2 || arch != arch2
    ensures Collected(listing + [DirEntry(FormatDirName(t, os2, arch2), true)], os, arch)
         == Collected(listing, os, arch)
  {
    ForeignPlatformRejected(Numeral(t.major), Numeral(t.minor), Numeral(t.patch), os, arch, os2, arch2);
    CollectedSnoc(listing, DirEntry(FormatDirName(t, os2, arch2), true), os, arch);
  }

  /** The directory of an installation of `t` for the platform's tokens. */
  function Installed(t: Triple, os: string, arch: string): DirEntry {
    DirEntry(FormatDirName(t, os, arch), true)
  }

  /** Three entries under any parser: two that parse, then one that does not. */
  lemma HarvestTwoOfThree(e1: DirEntry, e2: DirEntry, e3: DirEntry, parse: string -> Option<Triple>, t1: Triple, t2: Triple)
    requires e1.isDir && parse(e1.name) == Some(t1)
    requires e2.isDir && parse(e2.name) == Some(t2)
    requires parse(e3.name) == None
    ensures Harvest([e1, e2, e3], parse) == [t1, t2]
  {
    assert [] + [e1] == [e1] && [e1] + [e2] == [e1, e2] && [e1, e2] + [e3] == [e1, e2, e3];
    HarvestSnoc([], e1, parse);
    HarvestSnoc([e1], e2, parse);
    HarvestSnoc([e1, e2], e3, parse);
  }

  /** Two installations of the platform and one of another: the other
      platform's is skipped, and the own ones are collected in order. */
  lemma TwoOwnOneForeign(t1: Triple, t2: Triple, t3: Triple, os: string, arch: string, os2: string, arch2: string)
    requires NoUnderscore(os) && NoUnderscore(os2) && NoUnderscore(arch) && NoUnderscore(arch2)
    requires os != os2 || arch != arch2
    ensures Collected([Installed(t1, os, arch), Installed(t2, os, arch), Installed(t3, os2, arch2)], os, arch) == [t1, t2]
  {
    FormatParseRoundTrip(t1, os, arch);
    FormatParseRoundTrip(t2, os, arch);
    ForeignPlatformRejected(Numeral(t3.major), Numeral(t3.minor), Numeral(t3.patch), os, arch, os2, arch2);
    HarvestTwoOfThree(Installed(t1, os, arch), Installed(t2, os, arch), Installed(t3, os2, arch2), InstallationParser(os, arch), t1, t2);
  }

  /** With 1.2.0 and 1.3.0 installed for 64-bit x86 Linux and 1.3.0 for
      64-bit x86 macOS, Linux collects 1.2.0 and 1.3.0, and 1.3.0 is the
      greatest. The parameters are the tokens "linux", "darwin" and "amd64",
      fixed through CurrentPlatform rather than written as literals. */
  lemma LinuxSelectionExample(linux: string, darwin: string, amd64: string)
    requires CurrentPlatform(Linux, X8664) == Ok((linux, amd64))
    requires CurrentPlatform(Mac, X8664) == Ok((darwin, amd64))
    ensures var listing := [Installed(Triple(1, 2, 0), linux, amd64), Installed(Triple(1, 3, 0), linux, amd64),
                            Installed(Triple(1, 3, 0), darwin, amd64)];
            Collected(listing, linux, amd64) == [Triple(1, 2, 0), Triple(1, 3, 0)]
            && IsGreatest(Triple(1, 3, 0), Collected(listing, linux, amd64))
  {
    TokensHaveNoUnderscore(linux);
    TokensHaveNoUnderscore(darwin);
    TokensHaveNoUnderscore(amd64);
    TwoOwnOneForeign(Triple(1, 2, 0), Triple(1, 3, 0), Triple(1, 3, 0), linux, amd64, darwin, amd64);
  }

  /** The executable of the 1.3.0 installation for 64-bit x86 Linux. */
  lemma Linux130Executable(linux: string, amd64: string)
    requires linux == "linux" && amd64 == "amd64"
    ensures ExecutablePath(FormatDirName(Triple(1, 3, 0), linux, amd64)) == "mpls_1.3.0_linux_amd64/mpls"
  {
    assert Numeral(1) == "1" && Numeral(3) == "3" && Numeral(0) == "0";
    assert FormatDirName(Triple(1, 3, 0), linux, amd64) == DirPattern("1", "3", "0", "linux", "amd64");
    assert DirPattern("1", "3", "0", "linux", "amd64") == "mpls_1.3.0_linux_amd64";
  }

  /** The same listing end to end: offline resolution on 64-bit x86 Linux
      marks, and on success caches, the 1.3.0 executable for Linux. */
  lemma LinuxSelectionMarked(h: Host, before: Option<string>, r: Result<()>, after: Option<string>, events: seq<Event>, linux: string, darwin: string, amd64: string)
    requires CurrentPlatform(Linux, X8664) == Ok((linux, amd64))
    requires CurrentPlatform(Mac, X8664) == Ok((darwin, amd64))
    requires h.os == Linux && h.arch == X8664
    requires h.listing == Ok([Installed(Triple(1, 2, 0), linux, amd64), Installed(Triple(1, 3, 0), linux, amd64),
                              Installed(Triple(1, 3, 0), darwin, amd64)])
    requires OfflineOutcome(h, before, r, after, events)
    ensures events == [MakeExecutable("mpls_1.3.0_linux_amd64/mpls")]
    ensures r.Ok? <==> h.makeExecutable("mpls_1.3.0_linux_amd64/mpls").Ok?
    ensures r.Ok? ==> after == Some("mpls_1.3.0_linux_amd64/mpls")
  {
    LinuxSelectionExample(linux, darwin, amd64);
    OfflineMarksGreatest(h, before, r, after, events, linux, amd64, h.listing.value, Triple(1, 3, 0));
    Linux130Executable(linux, amd64);
  }
}
