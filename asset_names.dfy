/** The names derived from a release version and the platform tokens: the
    archived asset to look for in the release, the directory it unpacks to,
    and the executable inside that directory. */
module AssetNames {

  /** Every asset and installation directory name begins with this. */
  const Stem: string := "mpls_"

  /** The executable's file name inside an installation directory. */
  const BinaryName: string := "mpls"

  /** The release version can be sliced after its first byte: it is not
      empty and its first character is encoded in a single byte. */
  predicate Sliceable(version: string) {
    |version| > 0 && version[0] as int < 0x80
  }

  /** The version with its leading character (the "v" of "v0.16.0") dropped. */
  function VersionNumber(version: string): (v: string)
    requires Sliceable(version)
    ensures |v| == |version| - 1
    ensures version == [version[0]] + v
  {
    version[1..]
  }

  /** The directory an asset unpacks into. */
  function UnarchivedName(ver: string, os: string, arch: string): string {
    Stem + ver + "_" + os + "_" + arch
  }

  /** The asset's file name in the release. */
  function ArchivedName(ver: string, os: string, arch: string, ext: string): string {
    Stem + ver + "_" + os + "_" + arch + "." + ext
  }

  /** The executable inside an installation directory. */
  function ExecutablePath(dir: string): string {
    dir + "/" + BinaryName
  }

  /** The archive name is the directory name followed by "." and the extension. */
  lemma ArchivedExtendsUnarchived(ver: string, os: string, arch: string, ext: string)
    ensures ArchivedName(ver, os, arch, ext) == UnarchivedName(ver, os, arch) + "." + ext
  {
  }

  /** Distinct versions give distinct executable paths on one platform. */
  lemma {:induction false} ExecutablePathDeterminesVersion(v1: string, v2: string, os: string, arch: string)
    requires ExecutablePath(UnarchivedName(v1, os, arch)) == ExecutablePath(UnarchivedName(v2, os, arch))
    ensures v1 == v2
  {
    var p1, p2 := ExecutablePath(UnarchivedName(v1, os, arch)), ExecutablePath(UnarchivedName(v2, os, arch));
    var tail := "_" + os + "_" + arch + "/" + BinaryName;
    assert p1 == Stem + v1 + tail;
    assert p2 == Stem + v2 + tail;
    assert |v1| == |v2|;
    assert v1 == p1[|Stem|..|Stem| + |v1|];
    assert v2 == p2[|Stem|..|Stem| + |v2|];
  }

  /** Distinct installation directories hold distinct executables. */
  lemma ExecutablePathInjective(a: string, b: string)
    ensures ExecutablePath(a) == ExecutablePath(b) ==> a == b
  {
    if ExecutablePath(a) == ExecutablePath(b) {
      assert |a| == |b|;
      assert a == ExecutablePath(a)[..|a|];
      assert b == ExecutablePath(b)[..|b|];
    }
  }
}
