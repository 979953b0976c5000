/** The resolver: the extension object that finds, installs and remembers
    the language server executable, and builds the command that starts it.
    Everything the host provides (the search-path lookup, the release query,
    the filesystem, downloads and permission changes) is an input of type
    `Host`; the host calls the resolver makes are recorded in a ghost trace. */
module Resolver {
  import opened Wrappers
  import opened Platform
  import opened AssetNames
  import opened DirNames
  import opened Offline

  /** A downloadable file of a release. */
  datatype Asset = Asset(name: string, downloadUrl: string)

  /** The latest non-pre-release release that has assets. */
  datatype Release = Release(version: string, assets: seq<Asset>)

  /** The installation status shown by the host; `Cleared` is the host's
      "no status". */
  datatype InstallStatus = CheckingForUpdate | Downloading | Failed(message: string) | Cleared

  /** A call the resolver makes into the host. */
  datatype Event =
    | Broadcast(status: InstallStatus)
    | QueryLatestRelease
    | Download(url: string, dest: string, fileType: FileType)
    | MakeExecutable(path: string)

  /** What the host answers, fixed for one call of the resolver:
      - `which`: the executable found on the worktree's search path;
      - `release`: the latest release, or None when the query fails;
      - `fileExists`: whether a file exists (an I/O error reads as "no");
      - `listing`: the working directory's entries, or the I/O error;
      - `makeExecutable` and `download`: the outcome of those calls. */
  datatype Host = Host(
    os: Os,
    arch: Arch,
    which: Option<string>,
    release: Option<Release>,
    fileExists: string -> bool,
    listing: Result<seq<DirEntry>>,
    makeExecutable: string -> Result<()>,
    download: (string, string, FileType) -> Result<()>)

  /** A process launch specification. */
  datatype Command = Command(command: string, args: seq<string>, env: seq<(string, string)>)

  /** The flags every launch carries. */
  const ServerFlags: seq<string> := ["--enable-emoji", "--enable-wikilinks", "--enable-footnotes"]

  const AssetMissing: string := "Can't find the executable in MPLS GitHub release."

  const NoInstallation: string :=
    "No installation of MPLS has found. We can't install it because we have no internet connection."

  /** The first asset with the given name, if any. */
  function FindAsset(assets: seq<Asset>, name: string): (r: Option<Asset>)
    ensures r.None? <==> forall a :: a in assets ==> a.name != name
    ensures r.Some? ==> r.value.name == name
    ensures r.Some? ==> exists i :: 0 <= i < |assets| && assets[i] == r.value
                                  && forall j :: 0 <= j < i ==> assets[j].name != name
  {
    if |assets| == 0 then None
    else if assets[0].name == name then Some(assets[0])
    else
      var r := FindAsset(assets[1..], name);
      assert forall a :: a in assets ==> a == assets[0] || a in assets[1..];
      if r.Some? then
        var i :| 0 <= i < |assets[1..]| && assets[1..][i] == r.value
                 && forall j :: 0 <= j < i ==> assets[1..][j].name != name;
        assert assets[i + 1] == r.value;
        assert forall j :: 0 <= j < i + 1 ==> assets[j].name != name;
        r
      else r
  }

  /** The online path can slice the release version: whenever a release
      arrives on a supported platform, its version is sliceable. */
  predicate CanSliceVersion(h: Host) {
    h.release.Some? && CurrentPlatform(h.os, h.arch).Ok? ==> Sliceable(h.release.value.version)
  }

  /** The executable a release unpacks to on a platform. */
  function ReleaseExecutable(release: Release, os: string, arch: string): string
    requires Sliceable(release.version)
  {
    ExecutablePath(UnarchivedName(VersionNumber(release.version), os, arch))
  }

  /** Making `exe` executable and remembering it: the cache is set to `exe`
      exactly when that succeeds, and the error is returned otherwise. */
  ghost predicate Adopted(chmod: Result<()>, exe: string, before: Option<string>, r: Result<()>, after: Option<string>) {
    match chmod
    case Ok(_) => r == Ok(()) && after == Some(exe)
    case Err(m) => r == Err(m) && after == before
  }

  /** What the online path does with a release: `events` are the host calls
      it makes, `before` and `after` the cache around it. */
  ghost predicate OnlineOutcome(release: Release, h: Host, before: Option<string>, r: Result<()>, after: Option<string>, events: seq<Event>)
    requires CurrentPlatform(h.os, h.arch).Ok? ==> Sliceable(release.version)
  {
    match CurrentPlatform(h.os, h.arch)
    case Err(m) => r == Err(m) && after == before && events == []
    case Ok((os, arch)) =>
      var fileType := FileTypeFor(os);
      var ver := VersionNumber(release.version);
      var dir := UnarchivedName(ver, os, arch);
      var exe := ExecutablePath(dir);
      if h.fileExists(exe) then
        events == [MakeExecutable(exe)] && Adopted(h.makeExecutable(exe), exe, before, r, after)
      else
        match FindAsset(release.assets, ArchivedName(ver, os, arch, Extension(fileType)))
        case None => r == Err(AssetMissing) && after == before && events == []
        case Some(asset) =>
          var fetch := [Broadcast(Downloading), Download(asset.downloadUrl, dir, fileType)];
          match h.download(asset.downloadUrl, dir, fileType)
          case Err(m) => r == Err(m) && after == before && events == fetch
          case Ok(_) => events == fetch + [MakeExecutable(exe)] && Adopted(h.makeExecutable(exe), exe, before, r, after)
  }

  /** What the offline path does: the latest installation for the platform
      among the listed directories is made executable and remembered. */
  ghost predicate OfflineOutcome(h: Host, before: Option<string>, r: Result<()>, after: Option<string>, events: seq<Event>) {
    match CurrentPlatform(h.os, h.arch)
    case Err(m) => r == Err(m) && after == before && events == []
    case Ok((os, arch)) =>
      match h.listing
      case Err(m) => r == Err(m) && after == before && events == []
      case Ok(listing) =>
        var found := Collected(listing, os, arch);
        if |found| == 0 then r == Err(NoInstallation) && after == before && events == []
        else
          exists t :: IsGreatest(t, found)
            && var exe := ExecutablePath(FormatDirName(t, os, arch));
               events == [MakeExecutable(exe)] && Adopted(h.makeExecutable(exe), exe, before, r, after)
  }

  /** What resolution does, in order: the cache, the search path, then the
      release query and the online path, or the offline path when the query
      failed. */
  ghost predicate FindOutcome(h: Host, before: Option<string>, r: Result<()>, after: Option<string>, events: seq<Event>)
    requires before.None? && h.which.None? ==> CanSliceVersion(h)
  {
    if before.Some? then r == Ok(()) && after == before && events == []
    else if h.which.Some? then r == Ok(()) && after == h.which && events == []
    else
      |events| >= 2 && events[..2] == [Broadcast(CheckingForUpdate), QueryLatestRelease]
      && match h.release
         case Some(release) => OnlineOutcome(release, h, before, r, after, events[2..])
         case None => OfflineOutcome(h, before, r, after, events[2..])
  }

  /** The extension object. Its one field caches the resolved executable. */
  class Mpls {
    var languageServerPath: Option<string>
    ghost var trace: seq<Event>

    constructor ()
      ensures languageServerPath == None && trace == []
    {
      languageServerPath := None;
      trace := [];
    }

    /** Makes `exe` executable and, when that succeeds, caches it. */
    method Adopt(exe: string, h: Host) returns (r: Result<()>)
      modifies this
      ensures trace == old(trace) + [MakeExecutable(exe)]
      ensures Adopted(h.makeExecutable(exe), exe, old(languageServerPath), r, languageServerPath)
    {
      trace := trace + [MakeExecutable(exe)];
      var chmod := h.makeExecutable(exe);
      if chmod.Err? {
        return Err(chmod.msg);
      }
      languageServerPath := Some(exe);
      r := Ok(());
    }

    /** Installs the release's executable for the platform, reusing an
      earlier unpacked copy, and caches its path. */
    method WhenOnline(release: Release, h: Host) returns (r: Result<()>)
      requires CurrentPlatform(h.os, h.arch).Ok? ==> Sliceable(release.version)
      modifies this
      ensures |trace| >= |old(trace)| && trace[..|old(trace)|] == old(trace)
      ensures OnlineOutcome(release, h, old(languageServerPath), r, languageServerPath, trace[|old(trace)|..])
    {
      ghost var before, start := languageServerPath, trace;
      var platform := CurrentPlatform(h.os, h.arch);
      if platform.Err? {
        assert trace[|start|..] == [];
        return Err(platform.msg);
      }
      var (os, arch) := platform.value;
      var fileType := FileTypeFor(os);
      var extension := Extension(fileType);
      var ver := VersionNumber(release.version);
      var archived := ArchivedName(ver, os, arch, extension);
      var unarchived := UnarchivedName(ver, os, arch);
      var exe := ExecutablePath(unarchived);
      if h.fileExists(exe) {
        r := Adopt(exe, h);
        assert trace[|start|..] == [MakeExecutable(exe)];
        return;
      }
      var asset := FindAsset(release.assets, archived);
      if asset.None? {
        assert trace[|start|..] == [];
        return Err(AssetMissing);
      }
      trace := trace + [Broadcast(Downloading), Download(asset.value.downloadUrl, unarchived, fileType)];
      var downloaded := h.download(asset.value.downloadUrl, unarchived, fileType);
      if downloaded.Err? {
        assert trace[|start|..] == [Broadcast(Downloading), Download(asset.value.downloadUrl, unarchived, fileType)];
        return Err(downloaded.msg);
      }
      r := Adopt(exe, h);
      assert trace[|start|..] == [Broadcast(Downloading), Download(asset.value.downloadUrl, unarchived, fileType), MakeExecutable(exe)];
    }

    /** Selects the latest installation of the platform in the working
      directory and caches its path. */
    method WhenOffline(h: Host) returns (r: Result<()>)
      modifies this
      ensures |trace| >= |old(trace)| && trace[..|old(trace)|] == old(trace)
      ensures OfflineOutcome(h, old(languageServerPath), r, languageServerPath, trace[|old(trace)|..])
    {
      ghost var start := trace;
      var platform := CurrentPlatform(h.os, h.arch);
      if platform.Err? {
        assert trace[|start|..] == [];
        return Err(platform.msg);
      }
      var (os, arch) := platform.value;
      if h.listing.Err? {
        assert trace[|start|..] == [];
        return Err(h.listing.msg);
      }
      var triples := CollectTriples(h.listing.value, os, arch);
      var latest := LatestInstalled(triples);
      if latest.None? {
        assert trace[|start|..] == [];
        return Err(NoInstallation);
      }
      var exe := ExecutablePath(FormatDirName(latest.value, os, arch));
      r := Adopt(exe, h);
      assert trace[|start|..] == [MakeExecutable(exe)];
      assert IsGreatest(latest.value, Collected(h.listing.value, os, arch));
    }

    /** Resolves the executable unless it is already cached. */
    method FindLanguageServer(h: Host) returns (r: Result<()>)
      requires languageServerPath.None? && h.which.None? ==> CanSliceVersion(h)
      modifies this
      ensures |trace| >= |old(trace)| && trace[..|old(trace)|] == old(trace)
      ensures FindOutcome(h, old(languageServerPath), r, languageServerPath, trace[|old(trace)|..])
    {
      ghost var start := trace;
      if languageServerPath.Some? {
        assert trace[|start|..] == [];
        return Ok(());
      }
      if h.which.Some? {
        languageServerPath := Some(h.which.value);
        assert trace[|start|..] == [];
        return Ok(());
      }
      trace := trace + [Broadcast(CheckingForUpdate), QueryLatestRelease];
      ghost var queried := trace;
      if h.release.Some? {
        r := WhenOnline(h.release.value, h);
      } else {
        r := WhenOffline(h);
      }
      assert trace[..|queried|] == queried;
      assert trace[|start|..][..2] == trace[..|queried|][|start|..];
      assert trace[|start|..][2..] == trace[|queried|..];
    }

    /** Resolves the executable and returns the command that starts it,
      broadcasting the failure when resolution fails. */
    method LanguageServerCommand(h: Host) returns (r: Result<Command>)
      requires languageServerPath.None? && h.which.None? ==> CanSliceVersion(h)
      modifies this
      ensures |trace| > |old(trace)| && trace[..|old(trace)|] == old(trace)
      ensures FindOutcome(h, old(languageServerPath), if r.Ok? then Ok(()) else Err(r.msg),
                          languageServerPath, trace[|old(trace)|..|trace| - 1])
      ensures trace[|trace| - 1] == if r.Ok? then Broadcast(Cleared) else Broadcast(Failed(r.msg))
      ensures r.Ok? ==> languageServerPath.Some? && r.value == Command(languageServerPath.value, ServerFlags, [])
    {
      ghost var start := trace;
      var found := FindLanguageServer(h);
      ghost var resolved := trace;
      if found.Err? {
        trace := trace + [Broadcast(Failed(found.msg))];
        r := Err(found.msg);
      } else {
        trace := trace + [Broadcast(Cleared)];
        FindOutcomeCaches(h, old(languageServerPath), found, languageServerPath, resolved[|start|..]);
        r := Ok(Command(languageServerPath.value, ServerFlags, []));
      }
      assert trace[|start|..|trace| - 1] == resolved[|start|..];
    }
  }

  /** Resolution succeeds exactly when the cache ends up set; a failure
      leaves the cache as it was, and a set cache is never replaced. */
  lemma FindOutcomeCaches(h: Host, before: Option<string>, r: Result<()>, after: Option<string>, events: seq<Event>)
    requires before.None? && h.which.None? ==> CanSliceVersion(h)
    requires FindOutcome(h, before, r, after, events)
    ensures r.Ok? <==> after.Some?
    ensures r.Err? ==> after == before
    ensures before.Some? ==> after == before
  {
  }

  /** An earlier unpacked copy is reused: nothing is downloaded, and on
      success the cache holds exactly that copy's path. */
  lemma OnlineReusesInstalled(release: Release, h: Host, before: Option<string>, r: Result<()>, after: Option<string>, events: seq<Event>, os: string, arch: string)
    requires Sliceable(release.version)
    requires CurrentPlatform(h.os, h.arch) == Ok((os, arch))
    requires h.fileExists(ReleaseExecutable(release, os, arch))
    requires OnlineOutcome(release, h, before, r, after, events)
    ensures events == [MakeExecutable(ReleaseExecutable(release, os, arch))]
    ensures forall e :: e in events ==> !e.Download? && e != Broadcast(Downloading)
    ensures r.Ok? <==> h.makeExecutable(ReleaseExecutable(release, os, arch)).Ok?
    ensures r.Ok? ==> after == Some(ReleaseExecutable(release, os, arch))
    ensures r.Err? ==> after == before
  {
  }

  /** Without an unpacked copy and without an asset of the expected name,
      the online path fails with nothing downloaded and the cache unchanged. */
  lemma OnlineAssetMissing(release: Release, h: Host, before: Option<string>, r: Result<()>, after: Option<string>, events: seq<Event>, os: string, arch: string)
    requires Sliceable(release.version)
    requires CurrentPlatform(h.os, h.arch) == Ok((os, arch))
    requires !h.fileExists(ReleaseExecutable(release, os, arch))
    requires forall a :: a in release.assets ==> a.name != ArchivedName(VersionNumber(release.version), os, arch, Extension(FileTypeFor(os)))
    requires OnlineOutcome(release, h, before, r, after, events)
    ensures r == Err(AssetMissing) && after == before && events == []
  {
  }

  /** The online path downloads at most once, and only an asset named for
      the release and the platform, into that release's directory, unpacked
      as the platform's archive kind; the only executable it marks and
      caches is the release's. */
  lemma OnlineDownloadsOnlyTheAsset(release: Release, h: Host, before: Option<string>, r: Result<()>, after: Option<string>, events: seq<Event>, os: string, arch: string)
    requires Sliceable(release.version)
    requires CurrentPlatform(h.os, h.arch) == Ok((os, arch))
    requires OnlineOutcome(release, h, before, r, after, events)
    ensures forall i :: 0 <= i < |events| && events[i].Download? ==>
              i == 1 && !h.fileExists(ReleaseExecutable(release, os, arch))
              && events[i].dest == UnarchivedName(VersionNumber(release.version), os, arch)
              && events[i].fileType == FileTypeFor(os)
              && exists a :: a in release.assets && a.downloadUrl == events[i].url
                   && a.name == ArchivedName(VersionNumber(release.version), os, arch, Extension(FileTypeFor(os)))
    ensures forall e :: e in events && e.MakeExecutable? ==> e.path == ReleaseExecutable(release, os, arch)
    ensures r.Ok? ==> after == Some(ReleaseExecutable(release, os, arch))
    ensures r.Err? ==> after == before
  {
    var ver := VersionNumber(release.version);
    var asset := FindAsset(release.assets, ArchivedName(ver, os, arch, Extension(FileTypeFor(os))));
    if asset.Some? {
      var i :| 0 <= i < |release.assets| && release.assets[i] == asset.value
               && forall j :: 0 <= j < i ==> release.assets[j].name != ArchivedName(ver, os, arch, Extension(FileTypeFor(os)));
      assert release.assets[i] in release.assets;
    }
  }

  /** A release "v<a>.<b>.<c>" installed online caches an executable in a
      directory that the offline parser accepts, with the triple (a, b, c). */
  lemma OnlineInstallFoundOffline(release: Release, h: Host, before: Option<string>, r: Result<()>, after: Option<string>, events: seq<Event>, os: string, arch: string, da: string, db: string, dc: string)
    requires IsNumeral(da) && IsNumeral(db) && IsNumeral(dc)
    requires release.version == "v" + da + "." + db + "." + dc
    requires CurrentPlatform(h.os, h.arch) == Ok((os, arch))
    requires OnlineOutcome(release, h, before, r, after, events)
    requires r.Ok?
    ensures exists dir :: after == Some(ExecutablePath(dir))
                          && ParseDirName(dir, os, arch) == Some(Triple(Value(da), Value(db), Value(dc)))
  {
    OnlineDirectoryParses(release.version, da, db, dc, os, arch);
    OnlineDownloadsOnlyTheAsset(release, h, before, r, after, events, os, arch);
    var dir := UnarchivedName(VersionNumber(release.version), os, arch);
    assert after == Some(ExecutablePath(dir));
  }

  /** Whatever greatest collected triple the offline path selects, it marks
      and caches that triple's executable: the greatest triple is unique. */
  lemma OfflineMarksGreatest(h: Host, before: Option<string>, r: Result<()>, after: Option<string>, events: seq<Event>, os: string, arch: string, listing: seq<DirEntry>, t: Triple)
    requires CurrentPlatform(h.os, h.arch) == Ok((os, arch)) && h.listing == Ok(listing)
    requires IsGreatest(t, Collected(listing, os, arch))
    requires OfflineOutcome(h, before, r, after, events)
    ensures events == [MakeExecutable(ExecutablePath(FormatDirName(t, os, arch)))]
    ensures Adopted(h.makeExecutable(ExecutablePath(FormatDirName(t, os, arch))), ExecutablePath(FormatDirName(t, os, arch)), before, r, after)
  {
    var found := Collected(listing, os, arch);
    var t' :| IsGreatest(t', found)
      && var exe := ExecutablePath(FormatDirName(t', os, arch));
         events == [MakeExecutable(exe)] && Adopted(h.makeExecutable(exe), exe, before, r, after);
    GreatestUnique(t, t', found);
  }

  /** With numerals written without leading zeros, the name the offline path
      formats from the parsed triple is the online path's directory again. */
  lemma CanonicalVersionReformatted(release: Release, os: string, arch: string, da: string, db: string, dc: string)
    requires IsNumeral(da) && IsNumeral(db) && IsNumeral(dc)
    requires da == Numeral(Value(da)) && db == Numeral(Value(db)) && dc == Numeral(Value(dc))
    requires release.version == "v" + da + "." + db + "." + dc
    ensures Sliceable(release.version)
    ensures ExecutablePath(FormatDirName(Triple(Value(da), Value(db), Value(dc)), os, arch)) == ReleaseExecutable(release, os, arch)
  {
    OnlineDirectoryLayout(release.version, da, db, dc, os, arch);
  }

  /** A release "v<a>.<b>.<c>" (numerals without leading zeros) installed
      online, whose version is the newest installation of the platform in
      the listing, is the executable a later offline run marks and caches. */
  lemma OfflineReusesOnlineInstall(release: Release, h: Host, before: Option<string>, r: Result<()>, after: Option<string>, events: seq<Event>, os: string, arch: string, da: string, db: string, dc: string, listing: seq<DirEntry>, i: nat)
    requires IsNumeral(da) && IsNumeral(db) && IsNumeral(dc)
    requires da == Numeral(Value(da)) && db == Numeral(Value(db)) && dc == Numeral(Value(dc))
    requires release.version == "v" + da + "." + db + "." + dc
    requires CurrentPlatform(h.os, h.arch) == Ok((os, arch)) && h.listing == Ok(listing)
    requires i < |listing| && listing[i] == DirEntry(UnarchivedName(VersionNumber(release.version), os, arch), true)
    requires forall u :: u in Collected(listing, os, arch) ==> Le(u, Triple(Value(da), Value(db), Value(dc)))
    requires OfflineOutcome(h, before, r, after, events)
    ensures events == [MakeExecutable(ReleaseExecutable(release, os, arch))]
    ensures r.Ok? <==> h.makeExecutable(ReleaseExecutable(release, os, arch)).Ok?
    ensures r.Ok? ==> after == Some(ReleaseExecutable(release, os, arch))
  {
    var t := Triple(Value(da), Value(db), Value(dc));
    OnlineDirectoryParses(release.version, da, db, dc, os, arch);
    CollectedMembers(listing, os, arch, t);
    OfflineMarksGreatest(h, before, r, after, events, os, arch, listing, t);
    CanonicalVersionReformatted(release, os, arch, da, db, dc);
  }

  /** The offline path rebuilds the directory name from the parsed triple, so
      an installation with a number written with a leading zero is chosen,
      but the executable it marks and caches lies in another directory. */
  lemma OfflineLeadingZeroElsewhere(h: Host, before: Option<string>, r: Result<()>, after: Option<string>, events: seq<Event>, os: string, arch: string, da: string, db: string, dc: string)
    requires IsNumeral(da) && IsNumeral(db) && IsNumeral(dc)
    requires da != Numeral(Value(da)) || db != Numeral(Value(db)) || dc != Numeral(Value(dc))
    requires CurrentPlatform(h.os, h.arch) == Ok((os, arch))
    requires h.listing == Ok([DirEntry(DirPattern(da, db, dc, os, arch), true)])
    requires OfflineOutcome(h, before, r, after, events)
    ensures events == [MakeExecutable(ExecutablePath(FormatDirName(Triple(Value(da), Value(db), Value(dc)), os, arch)))]
    ensures ExecutablePath(FormatDirName(Triple(Value(da), Value(db), Value(dc)), os, arch)) != ExecutablePath(DirPattern(da, db, dc, os, arch))
  {
    var t := Triple(Value(da), Value(db), Value(dc));
    var e := DirEntry(DirPattern(da, db, dc, os, arch), true);
    ParseComplete(da, db, dc, os, arch);
    CollectedSnoc([], e, os, arch);
    assert [] + [e] == [e];
    OfflineMarksGreatest(h, before, r, after, events, os, arch, [e], t);
    LeadingZeroReformatted(da, db, dc, os, arch);
    ExecutablePathInjective(FormatDirName(t, os, arch), DirPattern(da, db, dc, os, arch));
  }

  /** The offline path caches the executable formatted from the greatest
      version among the platform's installation directories in the listing. */
  lemma OfflineSelectsLatest(h: Host, before: Option<string>, r: Result<()>, after: Option<string>, events: seq<Event>, os: string, arch: string, listing: seq<DirEntry>)
    requires CurrentPlatform(h.os, h.arch) == Ok((os, arch)) && h.listing == Ok(listing)
    requires OfflineOutcome(h, before, r, after, events)
    requires r.Ok?
    ensures exists t ::
              (exists i :: 0 <= i < |listing| && listing[i].isDir && Matches(listing[i].name, os, arch, t))
              && (forall i, u :: 0 <= i < |listing| && listing[i].isDir && Matches(listing[i].name, os, arch, u) ==> Le(u, t))
              && after == Some(ExecutablePath(FormatDirName(t, os, arch)))
              && events == [MakeExecutable(ExecutablePath(FormatDirName(t, os, arch)))]
  {
    var found := Collected(listing, os, arch);
    var t :| IsGreatest(t, found)
      && var exe := ExecutablePath(FormatDirName(t, os, arch));
         events == [MakeExecutable(exe)] && Adopted(h.makeExecutable(exe), exe, before, r, after);
    CollectedExactlyInstallations(listing, os, arch, t);
    forall i, u | 0 <= i < |listing| && listing[i].isDir && Matches(listing[i].name, os, arch, u)
      ensures Le(u, t)
    {
      CollectedExactlyInstallations(listing, os, arch, u);
    }
  }

  /** With no installation directory of the platform in the listing, the
      offline path fails, touches nothing and leaves the cache unchanged. */
  lemma OfflineNoInstallation(h: Host, before: Option<string>, r: Result<()>, after: Option<string>, events: seq<Event>, os: string, arch: string, listing: seq<DirEntry>)
    requires CurrentPlatform(h.os, h.arch) == Ok((os, arch)) && h.listing == Ok(listing)
    requires forall i :: 0 <= i < |listing| && listing[i].isDir ==> ParseDirName(listing[i].name, os, arch).None?
    requires OfflineOutcome(h, before, r, after, events)
    ensures r == Err(NoInstallation) && after == before && events == []
  {
    var found := Collected(listing, os, arch);
    if |found| > 0 {
      CollectedMembers(listing, os, arch, found[0]);
    }
  }

  /** A cached path short-circuits resolution; a search-path hit is cached
      as it is, without a release query. */
  lemma FindShortCircuits(h: Host, before: Option<string>, r: Result<()>, after: Option<string>, events: seq<Event>)
    requires before.Some? || h.which.Some?
    requires FindOutcome(h, before, r, after, events)
    ensures r == Ok(())
    ensures after == if before.Some? then before else h.which
    ensures QueryLatestRelease !in events
    ensures events == []
  {
  }

  /** When the release query succeeds the offline path never runs: every
      executable marked is the release's own, even when the online path
      fails. */
  lemma NoOfflineAfterOnline(h: Host, before: Option<string>, r: Result<()>, after: Option<string>, events: seq<Event>, os: string, arch: string)
    requires h.release.Some? && before.None? && h.which.None?
    requires CurrentPlatform(h.os, h.arch) == Ok((os, arch))
    requires Sliceable(h.release.value.version)
    requires FindOutcome(h, before, r, after, events)
    ensures events[..2] == [Broadcast(CheckingForUpdate), QueryLatestRelease]
    ensures forall e :: e in events && e.MakeExecutable? ==> e.path == ReleaseExecutable(h.release.value, os, arch)
  {
    OnlineDownloadsOnlyTheAsset(h.release.value, h, before, r, after, events[2..], os, arch);
    assert events == events[..2] + events[2..];
  }

  /** The platform is identified only after the status broadcast and the
      release query: an unsupported architecture fails after both, on either
      path. */
  lemma UnsupportedArchitectureAfterQuery(h: Host, r: Result<()>, after: Option<string>, events: seq<Event>)
    requires h.arch == X86 && h.which.None?
    requires FindOutcome(h, None, r, after, events)
    ensures events == [Broadcast(CheckingForUpdate), QueryLatestRelease]
    ensures r == Err(ArchName(X86) + " is not supported by MPLS") && after == None
  {
    assert events == events[..2] + events[2..];
    if h.release.Some? {
      assert OnlineOutcome(h.release.value, h, None, r, after, events[2..]);
    } else {
      assert OfflineOutcome(h, None, r, after, events[2..]);
    }
  }

  /** Resolving twice on one object: once the first command is built, the
      second request, whatever the host now answers, returns the same command
      and makes no host call besides clearing the status. */
  method CommandTwice(m: Mpls, h1: Host, h2: Host) returns (first: Result<Command>, second: Result<Command>, ghost afterFirst: seq<Event>)
    requires m.languageServerPath.None? && h1.which.None? ==> CanSliceVersion(h1)
    modifies m
    ensures first.Ok? ==> second == first
    ensures first.Ok? ==> m.trace == afterFirst + [Broadcast(Cleared)]
  {
    first := m.LanguageServerCommand(h1);
    afterFirst := m.trace;
    if first.Ok? {
      ghost var cached := m.languageServerPath;
      second := m.LanguageServerCommand(h2);
      FindShortCircuits(h2, cached, Ok(()), m.languageServerPath, m.trace[|afterFirst|..|m.trace| - 1]);
      assert m.trace == m.trace[..|afterFirst|] + m.trace[|afterFirst|..|m.trace| - 1] + [m.trace[|m.trace| - 1]];
    } else {
      second := first;
    }
  }
}
