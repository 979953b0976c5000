/** Offline selection: scan the working directory's entries, keep the
    directories whose names are installations for the current platform,
    and pick the greatest version among them. */
module Offline {
  import opened Wrappers
  import opened DirNames

  /** One entry of the working directory listing. */
  datatype DirEntry = DirEntry(name: string, isDir: bool)

  /** The lexicographic order on (major, minor, patch), as tuples compare. */
  predicate Le(a: Triple, b: Triple) {
    a.major < b.major
    || (a.major == b.major && (a.minor < b.minor || (a.minor == b.minor && a.patch <= b.patch)))
  }

  /** `Le` is a total order, so a greatest element of a non-empty collection
      exists and is unique. */
  lemma LeIsTotalOrder(a: Triple, b: Triple, c: Triple)
    ensures Le(a, a)
    ensures Le(a, b) && Le(b, a) ==> a == b
    ensures Le(a, b) && Le(b, c) ==> Le(a, c)
    ensures Le(a, b) || Le(b, a)
  {
  }

  predicate IsGreatest(t: Triple, s: seq<Triple>) {
    t in s && forall u :: u in s ==> Le(u, t)
  }

  predicate Sorted(s: seq<Triple>) {
    forall i, j :: 0 <= i < j < |s| ==> Le(s[i], s[j])
  }

  /** What one entry contributes under a name parser: the parsed triple
      when the entry is a directory whose name parses, nothing otherwise. */
  function Contribution(e: DirEntry, parse: string -> Option<Triple>): seq<Triple> {
    if !e.isDir then []
    else
      match parse(e.name)
      case Some(t) => [t]
      case None => []
  }

  /** The triples a name parser picks out of a listing's directories, in
      listing order. */
  function Harvest(listing: seq<DirEntry>, parse: string -> Option<Triple>): seq<Triple>
    decreases |listing|
  {
    if |listing| == 0 then []
    else Harvest(listing[..|listing| - 1], parse) + Contribution(listing[|listing| - 1], parse)
  }

  /** Harvesting a listing extended by one entry. */
  lemma HarvestSnoc(listing: seq<DirEntry>, e: DirEntry, parse: string -> Option<Triple>)
    ensures Harvest(listing + [e], parse) == Harvest(listing, parse) + Contribution(e, parse)
  {
    assert (listing + [e])[..|listing|] == listing;
  }

  /** A triple is harvested exactly when some directory's name parses to it. */
  lemma {:induction false} HarvestMembers(listing: seq<DirEntry>, parse: string -> Option<Triple>, t: Triple)
    ensures t in Harvest(listing, parse)
        <==> exists i :: 0 <= i < |listing| && listing[i].isDir && parse(listing[i].name) == Some(t)
    decreases |listing|
  {
    if |listing| > 0 {
      var init := listing[..|listing| - 1];
      HarvestMembers(init, parse, t);
      assert forall i :: 0 <= i < |init| ==> init[i] == listing[i];
    }
  }

  /** The installation-directory parser of a platform. */
  function InstallationParser(os: string, arch: string): string -> Option<Triple> {
    name => ParseDirName(name, os, arch)
  }

  /** The triples of the platform's installation directories in a listing,
      in listing order. */
  function Collected(listing: seq<DirEntry>, os: string, arch: string): seq<Triple> {
    Harvest(listing, InstallationParser(os, arch))
  }

  /** Collecting from a listing extended by one entry. */
  lemma CollectedSnoc(listing: seq<DirEntry>, e: DirEntry, os: string, arch: string)
    ensures Collected(listing + [e], os, arch)
         == Collected(listing, os, arch) + (if e.isDir && ParseDirName(e.name, os, arch).Some?
                                            then [ParseDirName(e.name, os, arch).value] else [])
  {
    HarvestSnoc(listing, e, InstallationParser(os, arch));
  }

  /** A triple is collected exactly when some directory entry's name parses
      to it. */
  lemma CollectedMembers(listing: seq<DirEntry>, os: string, arch: string, t: Triple)
    ensures t in Collected(listing, os, arch)
        <==> exists i :: 0 <= i < |listing| && listing[i].isDir && ParseDirName(listing[i].name, os, arch) == Some(t)
  {
    HarvestMembers(listing, InstallationParser(os, arch), t);
  }

  /** A triple is collected exactly when some directory in the listing is
      named in the installation layout for the platform with that version:
      non-directories, other platforms' directories and any other names
      contribute nothing. */
  lemma CollectedExactlyInstallations(listing: seq<DirEntry>, os: string, arch: string, t: Triple)
    ensures t in Collected(listing, os, arch)
        <==> exists i :: 0 <= i < |listing| && listing[i].isDir && Matches(listing[i].name, os, arch, t)
  {
    CollectedMembers(listing, os, arch, t);
    forall i | 0 <= i < |listing| {
      ParseIff(listing[i].name, os, arch, t);
    }
  }

  /** The scanning loop: pushes the triple of every matching directory. */
  method CollectTriples(listing: seq<DirEntry>, os: string, arch: string) returns (triples: seq<Triple>)
    ensures triples == Collected(listing, os, arch)
  {
    triples := [];
    var i := 0;
    while i < |listing|
      invariant 0 <= i <= |listing|
      invariant triples == Collected(listing[..i], os, arch)
    {
      var entry := listing[i];
      assert listing[..i + 1] == listing[..i] + [entry];
      CollectedSnoc(listing[..i], entry, os, arch);
      if entry.isDir {
        match ParseDirName(entry.name, os, arch)
        case Some(t) =>
          triples := triples + [t];
        case None =>
      }
      i := i + 1;
    }
    assert listing[..i] == listing;
  }

  /** The latest collected version: the greatest triple, or None when
      nothing was collected. */
  method LatestInstalled(triples: seq<Triple>) returns (latest: Option<Triple>)
    ensures latest.None? <==> |triples| == 0
    ensures latest.Some? ==> IsGreatest(latest.value, triples)
  {
    if |triples| == 0 {
      return None;
    }
    var best := triples[0];
    var i := 1;
    while i < |triples|
      invariant 1 <= i <= |triples|
      invariant best in triples[..i]
      invariant forall j :: 0 <= j < i ==> Le(triples[j], best)
    {
      if Le(best, triples[i]) {
        best := triples[i];
      }
      i := i + 1;
    }
    assert triples[..i] == triples;
    latest := Some(best);
  }

  /** Sorting and taking the last element, as the source does, selects a
      greatest element. */
  lemma SortedLastIsGreatest(s: seq<Triple>, sorted: seq<Triple>)
    requires multiset(sorted) == multiset(s) && Sorted(sorted) && |sorted| > 0
    ensures IsGreatest(sorted[|sorted| - 1], s)
  {
    assert |sorted| == |multiset(sorted)| == |s|;
    var last := sorted[|sorted| - 1];
    assert last in multiset(s);
    forall u | u in s
      ensures Le(u, last)
    {
      assert u in multiset(sorted);
      var j :| 0 <= j < |sorted| && sorted[j] == u;
      if j < |sorted| - 1 {
        assert Le(sorted[j], sorted[|sorted| - 1]);
      }
    }
  }

  /** The greatest element is unique, so any method that selects one (the
      sort-and-last of the source, the scan of LatestInstalled) selects the same. */
  lemma GreatestUnique(a: Triple, b: Triple, s: seq<Triple>)
    requires IsGreatest(a, s) && IsGreatest(b, s)
    ensures a == b
  {
    LeIsTotalOrder(a, b, a);
  }
}
