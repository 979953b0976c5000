/** Installation directory names read as data. An installation lives in a
    directory named `mpls_<major>.<minor>.<patch>_<os>_<arch>`; offline
    resolution recovers the version triple from such a name. The regular
    expression `^mpls_([0-9]+)\.([0-9]+)\.([0-9]+)_<os>_<arch>$` is modelled
    by a hand-written parser, proved to accept exactly the names of that
    layout, and the names written for a triple parse back to it. */
module DirNames {
  import opened Wrappers
  import opened AssetNames
  import opened Platform

  /** A version as recovered from a directory name. */
  datatype Triple = Triple(major: nat, minor: nat, patch: nat)

  /** An ASCII decimal digit, the class `[0-9]`. */
  predicate IsDigit(c: char) {
    '0' <= c <= '9'
  }

  predicate AllDigits(s: string) {
    forall i :: 0 <= i < |s| ==> IsDigit(s[i])
  }

  /** A match of `[0-9]+`. */
  predicate IsNumeral(s: string) {
    |s| > 0 && AllDigits(s)
  }

  /** The decimal value of a digit string; leading zeros are allowed. */
  function Value(s: string): nat
    requires AllDigits(s)
    decreases |s|
  {
    if |s| == 0 then 0 else Value(s[..|s| - 1]) * 10 + (s[|s| - 1] as int - '0' as int)
  }

  function DigitChar(d: nat): (c: char)
    requires d < 10
    ensures IsDigit(c) && c as int - '0' as int == d
  {
    ('0' as int + d) as char
  }

  /** The decimal rendering of a number, without leading zeros. */
  function Numeral(n: nat): (s: string)
    ensures IsNumeral(s) && Value(s) == n
    ensures s[0] == '0' ==> s == "0"
    decreases n
  {
    if n < 10 then [DigitChar(n)]
    else
      var s := Numeral(n / 10) + [DigitChar(n % 10)];
      assert s[..|s| - 1] == Numeral(n / 10);
      s
  }

  /** Splits off the longest prefix of digits. */
  function SpanDigits(s: string): (r: (string, string))
    ensures AllDigits(r.0) && r.0 + r.1 == s
    ensures |r.1| > 0 ==> !IsDigit(r.1[0])
    decreases |s|
  {
    if |s| == 0 || !IsDigit(s[0]) then ([], s)
    else
      var (d, rest) := SpanDigits(s[1..]);
      ([s[0]] + d, rest)
  }

  /** Digits followed by a non-digit are split off exactly. */
  lemma {:induction false} SpanDigitsOf(d: string, rest: string)
    requires AllDigits(d)
    requires |rest| > 0 ==> !IsDigit(rest[0])
    ensures SpanDigits(d + rest) == (d, rest)
  {
    if |d| == 0 {
      assert d + rest == rest;
    } else {
      assert (d + rest)[1..] == d[1..] + rest;
      SpanDigitsOf(d[1..], rest);
      assert [d[0]] + d[1..] == d;
    }
  }

  /** The installation directory layout for three digit strings. */
  function DirPattern(da: string, db: string, dc: string, os: string, arch: string): string {
    Stem + da + "." + db + "." + dc + "_" + os + "_" + arch
  }

  /** A match of `[0-9]+` followed by the literal `sep`: the digits and what
      follows the separator. */
  function Component(s: string, sep: string): (r: Option<(string, string)>)
    ensures r.Some? ==> IsNumeral(r.value.0) && s == r.value.0 + sep + r.value.1
  {
    var (d, rest) := SpanDigits(s);
    if |d| > 0 && |rest| >= |sep| && rest[..|sep|] == sep then
      assert rest == sep + rest[|sep|..];
      Some((d, rest[|sep|..]))
    else None
  }

  /** A match of `[0-9]+` followed by exactly `suffix` and the end of the name. */
  function LastComponent(s: string, suffix: string): (r: Option<string>)
    ensures r.Some? ==> IsNumeral(r.value) && s == r.value + suffix
  {
    var (d, rest) := SpanDigits(s);
    if |d| > 0 && rest == suffix then Some(d) else None
  }

  /** The match of the installation-directory regular expression for the
      platform tokens `os` and `arch`, with the three captures read as numbers. */
  function ParseDirName(name: string, os: string, arch: string): Option<Triple> {
    if |name| < |Stem| || name[..|Stem|] != Stem then None
    else
      match Component(name[|Stem|..], ".")
      case None => None
      case Some((d1, r1)) =>
        match Component(r1, ".")
        case None => None
        case Some((d2, r2)) =>
          match LastComponent(r2, "_" + os + "_" + arch)
          case None => None
          case Some(d3) => Some(Triple(Value(d1), Value(d2), Value(d3)))
  }

  /** The name is in the layout for `os` and `arch`, and its three numerals
      have the values of `t`. */
  ghost predicate Matches(name: string, os: string, arch: string, t: Triple) {
    exists da, db, dc :: IsNumeral(da) && IsNumeral(db) && IsNumeral(dc)
      && name == DirPattern(da, db, dc, os, arch)
      && t == Triple(Value(da), Value(db), Value(dc))
  }

  /** Digits, a separator that does not begin with a digit, and anything
      after it are split exactly where the separator starts. */
  lemma ComponentOf(d: string, sep: string, rest: string)
    requires IsNumeral(d)
    requires |sep| > 0 && !IsDigit(sep[0])
    ensures Component(d + sep + rest, sep) == Some((d, rest))
  {
    assert d + sep + rest == d + (sep + rest);
    SpanDigitsOf(d, sep + rest);
    assert (sep + rest)[..|sep|] == sep && (sep + rest)[|sep|..] == rest;
  }

  /** Digits followed by a suffix that does not begin with a digit are the
      last component exactly when the suffix is the expected one. */
  lemma LastComponentOf(d: string, actual: string, suffix: string)
    requires IsNumeral(d)
    requires |actual| > 0 && !IsDigit(actual[0])
    ensures LastComponent(d + actual, suffix) == if actual == suffix then Some(d) else None
  {
    SpanDigitsOf(d, actual);
  }

  /** After the stem, three components separated by dots with a platform
      suffix parse exactly when the suffix is the expected one. */
  lemma ParseVersionPattern(da: string, db: string, dc: string, actual: string, suffix: string)
    requires IsNumeral(da) && IsNumeral(db) && IsNumeral(dc)
    requires |actual| > 0 && !IsDigit(actual[0])
    ensures Component(da + "." + (db + "." + (dc + actual)), ".") == Some((da, db + "." + (dc + actual)))
    ensures Component(db + "." + (dc + actual), ".") == Some((db, dc + actual))
    ensures LastComponent(dc + actual, suffix) == if actual == suffix then Some(dc) else None
  {
    ComponentOf(da, ".", db + "." + (dc + actual));
    ComponentOf(db, ".", dc + actual);
    LastComponentOf(dc, actual, suffix);
  }

  /** A name in the layout of any platform parses for a platform exactly
      when the platform suffixes agree. */
  lemma ParsePattern(da: string, db: string, dc: string, os2: string, arch2: string, os: string, arch: string)
    requires IsNumeral(da) && IsNumeral(db) && IsNumeral(dc)
    ensures ParseDirName(DirPattern(da, db, dc, os2, arch2), os, arch)
         == if "_" + os2 + "_" + arch2 == "_" + os + "_" + arch
            then Some(Triple(Value(da), Value(db), Value(dc))) else None
  {
    var actual := "_" + os2 + "_" + arch2;
    var rest := da + "." + (db + "." + (dc + actual));
    var name := DirPattern(da, db, dc, os2, arch2);
    DirPatternRegrouped(da, db, dc, os2, arch2);
    assert name[..|Stem|] == Stem;
    assert name[|Stem|..] == rest;
    ParseVersionPattern(da, db, dc, actual, "_" + os + "_" + arch);
  }

  /** Reassembles a name from its stem, its three numerals and its suffix. */
  lemma Reassemble(name: string, s1: string, d1: string, r1: string, d2: string, r2: string, d3: string, os: string, arch: string)
    requires name == Stem + s1 && s1 == d1 + "." + r1 && r1 == d2 + "." + r2 && r2 == d3 + ("_" + os + "_" + arch)
    ensures name == DirPattern(d1, d2, d3, os, arch)
  {
  }

  /** Every accepted name is in the layout. */
  lemma ParseSound(name: string, os: string, arch: string)
    ensures ParseDirName(name, os, arch).Some? ==> Matches(name, os, arch, ParseDirName(name, os, arch).value)
  {
    if ParseDirName(name, os, arch).Some? {
      var s1 := name[|Stem|..];
      var (d1, r1) := Component(s1, ".").value;
      var (d2, r2) := Component(r1, ".").value;
      var d3 := LastComponent(r2, "_" + os + "_" + arch).value;
      assert name == Stem + s1 by {
        assert name == name[..|Stem|] + name[|Stem|..];
      }
      Reassemble(name, s1, d1, r1, d2, r2, d3, os, arch);
      assert ParseDirName(name, os, arch).value == Triple(Value(d1), Value(d2), Value(d3));
    }
  }

  /** Every name in the layout is accepted, with the numerals' values. */
  lemma ParseComplete(da: string, db: string, dc: string, os: string, arch: string)
    requires IsNumeral(da) && IsNumeral(db) && IsNumeral(dc)
    ensures ParseDirName(DirPattern(da, db, dc, os, arch), os, arch) == Some(Triple(Value(da), Value(db), Value(dc)))
  {
    ParsePattern(da, db, dc, os, arch, os, arch);
  }

  /** The parser accepts a name with triple `t` if and only if the name is
      in the layout for the platform with numerals worth `t`. */
  lemma ParseIff(name: string, os: string, arch: string, t: Triple)
    ensures ParseDirName(name, os, arch) == Some(t) <==> Matches(name, os, arch, t)
  {
    ParseSound(name, os, arch);
    if Matches(name, os, arch, t) {
      var da, db, dc :| IsNumeral(da) && IsNumeral(db) && IsNumeral(dc)
        && name == DirPattern(da, db, dc, os, arch)
        && t == Triple(Value(da), Value(db), Value(dc));
      ParseComplete(da, db, dc, os, arch);
    }
  }

  /** The directory name an installation of `t` has, as the offline path
      formats it. */
  function FormatDirName(t: Triple, os: string, arch: string): string {
    DirPattern(Numeral(t.major), Numeral(t.minor), Numeral(t.patch), os, arch)
  }

  /** Formatting a triple and parsing the name gives the triple back. */
  lemma FormatParseRoundTrip(t: Triple, os: string, arch: string)
    ensures ParseDirName(FormatDirName(t, os, arch), os, arch) == Some(t)
  {
    ParseComplete(Numeral(t.major), Numeral(t.minor), Numeral(t.patch), os, arch);
  }

  /** A token without an underscore, as every platform token is. */
  predicate NoUnderscore(s: string) {
    forall i :: 0 <= i < |s| ==> s[i] != '_'
  }

  lemma TokensHaveNoUnderscore(s: string)
    requires IsOsToken(s) || IsArchToken(s)
    ensures NoUnderscore(s)
  {
  }

  /** In `_<os>_<arch>` with an underscore-free `os`, the second underscore
      is the one right after `os`. */
  lemma SecondUnderscore(os: string, arch: string)
    requires NoUnderscore(os)
    ensures ("_" + os + "_" + arch)[1 + |os|] == '_'
    ensures forall k :: 1 <= k <= |os| ==> ("_" + os + "_" + arch)[k] != '_'
  {
    var s := "_" + os + "_" + arch;
    forall k | 1 <= k <= |os|
      ensures s[k] != '_'
    {
      assert s[k] == os[k - 1];
    }
  }

  /** Tokens without underscores are recovered from the suffix `_<os>_<arch>`:
      the suffixes of two different platforms differ. */
  lemma SuffixIdentifiesPlatform(os: string, arch: string, os2: string, arch2: string)
    requires NoUnderscore(os) && NoUnderscore(os2) && NoUnderscore(arch) && NoUnderscore(arch2)
    requires "_" + os2 + "_" + arch2 == "_" + os + "_" + arch
    ensures os == os2 && arch == arch2
  {
    var s := "_" + os + "_" + arch;
    SecondUnderscore(os, arch);
    SecondUnderscore(os2, arch2);
    assert |os| == |os2|;
    assert os == s[1..1 + |os|] && os2 == s[1..1 + |os2|];
    assert arch == s[2 + |os|..] && arch2 == s[2 + |os2|..];
  }

  /** The directory of another platform's installation contributes nothing. */
  lemma ForeignPlatformRejected(da: string, db: string, dc: string, os: string, arch: string, os2: string, arch2: string)
    requires IsNumeral(da) && IsNumeral(db) && IsNumeral(dc)
    requires NoUnderscore(os) && NoUnderscore(os2) && NoUnderscore(arch) && NoUnderscore(arch2)
    requires os != os2 || arch != arch2
    ensures ParseDirName(DirPattern(da, db, dc, os2, arch2), os, arch) == None
  {
    ParsePattern(da, db, dc, os2, arch2, os, arch);
    if "_" + os2 + "_" + arch2 == "_" + os + "_" + arch {
      SuffixIdentifiesPlatform(os, arch, os2, arch2);
    }
  }

  /** The directory of another supported platform's installation is
      rejected: the tokens of two different supported platforms differ and
      contain no underscore. */
  lemma OtherSupportedPlatformRejected(t: Triple, os: Os, arch: Arch, os2: Os, arch2: Arch)
    requires CurrentPlatform(os, arch).Ok? && CurrentPlatform(os2, arch2).Ok?
    requires os != os2 || arch != arch2
    ensures ParseDirName(FormatDirName(t, CurrentPlatform(os2, arch2).value.0, CurrentPlatform(os2, arch2).value.1),
                         CurrentPlatform(os, arch).value.0, CurrentPlatform(os, arch).value.1) == None
  {
    var (o, a) := CurrentPlatform(os, arch).value;
    var (o2, a2) := CurrentPlatform(os2, arch2).value;
    TokensHaveNoUnderscore(o);
    TokensHaveNoUnderscore(a);
    TokensHaveNoUnderscore(o2);
    TokensHaveNoUnderscore(a2);
    PlatformTokensIdentify(os, arch);
    PlatformTokensIdentify(os2, arch2);
    ForeignPlatformRejected(Numeral(t.major), Numeral(t.minor), Numeral(t.patch), o, a, o2, a2);
  }

  /** The layout regrouped as the stem followed by the three components. */
  lemma DirPatternRegrouped(da: string, db: string, dc: string, os: string, arch: string)
    ensures DirPattern(da, db, dc, os, arch) == Stem + (da + "." + (db + "." + (dc + ("_" + os + "_" + arch))))
  {
  }

  /** A name in the layout determines its three numerals. */
  lemma DirPatternInjective(da: string, db: string, dc: string, ea: string, eb: string, ec: string, os: string, arch: string)
    requires IsNumeral(da) && IsNumeral(db) && IsNumeral(dc)
    requires IsNumeral(ea) && IsNumeral(eb) && IsNumeral(ec)
    ensures DirPattern(da, db, dc, os, arch) == DirPattern(ea, eb, ec, os, arch) ==> da == ea && db == eb && dc == ec
  {
    var suffix := "_" + os + "_" + arch;
    DirPatternRegrouped(da, db, dc, os, arch);
    DirPatternRegrouped(ea, eb, ec, os, arch);
    ParseVersionPattern(da, db, dc, suffix, suffix);
    ParseVersionPattern(ea, eb, ec, suffix, suffix);
    if DirPattern(da, db, dc, os, arch) == DirPattern(ea, eb, ec, os, arch) {
      var x := da + "." + (db + "." + (dc + suffix));
      var y := ea + "." + (eb + "." + (ec + suffix));
      assert x == DirPattern(da, db, dc, os, arch)[|Stem|..];
      assert y == DirPattern(ea, eb, ec, os, arch)[|Stem|..];
    }
  }

  /** Formatting the parsed triple gives the listed name back exactly when
      none of its three numerals has a leading zero. */
  lemma LeadingZeroReformatted(da: string, db: string, dc: string, os: string, arch: string)
    requires IsNumeral(da) && IsNumeral(db) && IsNumeral(dc)
    ensures FormatDirName(Triple(Value(da), Value(db), Value(dc)), os, arch) == DirPattern(da, db, dc, os, arch)
        <==> da == Numeral(Value(da)) && db == Numeral(Value(db)) && dc == Numeral(Value(dc))
  {
    DirPatternInjective(Numeral(Value(da)), Numeral(Value(db)), Numeral(Value(dc)), da, db, dc, os, arch);
  }

  /** The directory that online installation unpacks a release
      "v<a>.<b>.<c>" into is in the installation layout with numerals a, b, c. */
  lemma OnlineDirectoryLayout(version: string, da: string, db: string, dc: string, os: string, arch: string)
    requires version == "v" + da + "." + db + "." + dc
    ensures Sliceable(version)
    ensures UnarchivedName(VersionNumber(version), os, arch) == DirPattern(da, db, dc, os, arch)
  {
    assert VersionNumber(version) == da + "." + db + "." + dc;
  }

  /** The directory that online installation unpacks a release "v<a>.<b>.<c>"
      into is recognised later by the offline parser, with that version. */
  lemma OnlineDirectoryParses(version: string, da: string, db: string, dc: string, os: string, arch: string)
    requires IsNumeral(da) && IsNumeral(db) && IsNumeral(dc)
    requires version == "v" + da + "." + db + "." + dc
    ensures Sliceable(version)
    ensures ParseDirName(UnarchivedName(VersionNumber(version), os, arch), os, arch)
         == Some(Triple(Value(da), Value(db), Value(dc)))
  {
    OnlineDirectoryLayout(version, da, db, dc, os, arch);
    ParseComplete(da, db, dc, os, arch);
  }
}
