# MPLS executable resolution for the Zed editor, modelled in Dafny

The MPLS extension for Zed has to find the MPLS language server before it can
start it. It tries four places in order:

1. the path it cached earlier;
2. an `mpls` on the worktree's search path;
3. the latest GitHub release, downloaded and unpacked into the extension's
   working directory (the *online* path);
4. when the release query fails, the newest installation that an earlier
   download left in that directory (the *offline* path).

The result is cached. The command that starts the server always carries
three fixed flags.

This project models that logic in a set of Dafny modules:

- `Platform` (`platform.dfy`): turns the host's operating system and
  architecture into the tokens used in asset names (`linux`/`darwin`/`windows`,
  `arm64`/`amd64`), or rejects the architecture. It also gives each
  operating system its archive kind and extension.
- `AssetNames` (`asset_names.dfy`): derives three names from a release
  version such as `v0.16.0` and the tokens. They are the archived asset
  `mpls_0.16.0_linux_amd64.tar.gz`, the directory it unpacks into, and the
  executable `<dir>/mpls`.
- `DirNames` (`dir_names.dfy`): replaces the regular expression
  `^mpls_([0-9]+)\.([0-9]+)\.([0-9]+)_<os>_<arch>$` with a hand-written parser
  that returns a version triple. The parser is proved to accept exactly the
  names in that layout. The name formatted for a triple parses back to that
  triple, and other platforms' directories are rejected.
- `Offline` (`offline.dfy`): the scanning loop that collects the triples of
  the matching directories, and the selection of the greatest triple in
  lexicographic (major, minor, patch) order.
- `Resolver` (`resolver.dfy`): the extension object `Mpls`, with its one
  cached field `languageServerPath`. Its methods are `FindLanguageServer`,
  `WhenOnline`, `WhenOffline` and `LanguageServerCommand`. Each is proved
  against a specification predicate (`FindOutcome`, `OnlineOutcome`,
  `OfflineOutcome`), and lemmas derive the promised behaviour from those
  predicates.
- `Instances` (`instances.dfy`): a worked naming example; how one listed
  installation directory changes what the offline path collects; two own
  installations beside another platform's (`TwoOwnOneForeign`); and the
  selection among 1.2.0 and 1.3.0 for linux/amd64 beside 1.3.0 for
  darwin/amd64 (`LinuxSelectionExample`), carried through offline
  resolution to the executable marked (`LinuxSelectionMarked`).

What the host provides is one input value of type `Host`:

- the platform;
- the search-path lookup;
- the release query's answer;
- file existence;
- the directory listing;
- the outcomes of `download_file` and `make_file_executable`.

The host calls the resolver makes (status broadcasts, the release query,
downloads, permission changes) are recorded in a ghost `trace`. This lets
the contracts state the order of events and which downloads happened.

The model follows the code to the letter in five places that are easy to misread:

- The platform is identified inside the online and offline paths. That is
  after the `CheckingForUpdate` status and the release query
  (src/lib.rs:42-52, 67, 120), not before them. `UnsupportedArchitectureAfterQuery`
  states the consequence.
- The online path checks only whether the executable inside the unpacked
  directory exists (src/lib.rs:94). An existing directory with no executable
  in it does not count.
- The missing-asset error is the fixed text "Can't find the executable in
  MPLS GitHub release." (src/lib.rs:106), without the release's name.
- An error from the online path is returned as it is. The offline path
  runs only when the release query itself fails (src/lib.rs:53-59).
- The offline path rebuilds the executable's directory from the parsed
  numbers (src/lib.rs:151-153), not from the directory name it matched.
  A directory whose numerals have leading zeros, such as
  `mpls_01.2.3_linux_amd64`, is selected as 1.2.3, but the executable marked
  is `mpls_1.2.3_linux_amd64/mpls` (`OfflineLeadingZeroElsewhere`). Release
  names without leading zeros round-trip (`OfflineReusesOnlineInstall`).

## Model

| member | source | states |
|---|---|---|
| Platform.CurrentPlatform | src/lib.rs:5-18 | Linux, Mac and Windows map to "linux", "darwin" and "windows"; Aarch64 and X8664 map to "arm64" and "amd64", each mapping both ways; the result is an error exactly for the other architecture, and never a partial result; the error reads "<arch> is not supported by MPLS" |
| Platform.ArchName | src/lib.rs:15 | stands for the host crate's `Debug` text of an architecture in the error message; the model uses the variant's name |
| Platform.PlatformTokensIdentify | src/lib.rs:7-16 | the tokens of a supported platform read back to that OS and architecture, so no two platforms share a token pair |
| Platform.FileTypeFor | src/lib.rs:68-72 | the archive kind is Zip exactly for "windows" and GzipTar exactly for "linux" and "darwin"; the unreachable arm is excluded because the argument is always an OS token |
| Platform.Extension | src/lib.rs:73-78 | the file-name extension of each archive kind: "zip", "tar.gz", "gz", or empty for an uncompressed file |
| Platform.ExtensionForOs | src/lib.rs:68-78 | Windows assets end in "zip", Linux and macOS assets in "tar.gz" |
| AssetNames.VersionNumber | src/lib.rs:81 | the version with its first character dropped: one character shorter, and that character followed by the result is the version |
| AssetNames.UnarchivedName | src/lib.rs:86-91 | the directory an asset unpacks into: "mpls_", the version number, "_", the OS token, "_", the architecture token |
| AssetNames.ArchivedName | src/lib.rs:79-85 | the asset's file name: the same layout as the directory, then "." and the extension |
| AssetNames.ExecutablePath | src/lib.rs:92 | the executable inside a directory: the directory, "/" and "mpls" |
| AssetNames.ArchivedExtendsUnarchived | src/lib.rs:79-91 | the archived asset name is the unarchived directory name followed by "." and the extension |
| AssetNames.ExecutablePathDeterminesVersion | src/lib.rs:86-92 | on one platform, equal executable paths mean equal versions |
| AssetNames.ExecutablePathInjective | src/lib.rs:92 | distinct directories hold distinct executable paths |
| DirNames.Numeral | src/lib.rs:151-153 | the decimal text of a number is a non-empty digit string with that value and no leading zero |
| DirNames.Value | src/lib.rs:142-144 | the decimal value of a digit string, leading zeros allowed, as `parse()` reads a `[0-9]+` capture; `usize` overflow is left out |
| DirNames.SpanDigits | src/lib.rs:121 | splits a string into a digit prefix and a rest that does not start with a digit; together they make up the input |
| DirNames.SpanDigitsOf | src/lib.rs:121 | digits followed by a non-digit are split exactly at the boundary |
| DirNames.Component | src/lib.rs:121 | an accepted component is a non-empty digit string followed by the separator and the remaining text |
| DirNames.LastComponent | src/lib.rs:121 | an accepted last component is a non-empty digit string followed by exactly the platform suffix, then the end |
| DirNames.ParseDirName | src/lib.rs:121-145 | the match of the anchored installation-directory pattern for the platform tokens, each capture read as its decimal value, or None; ParseSound, ParseComplete and ParseIff state what it accepts |
| DirNames.ParseSound | src/lib.rs:121-145 | every name the parser accepts is in the layout `mpls_<digits>.<digits>.<digits>_<os>_<arch>`, and the triple holds the values of its numerals |
| DirNames.ParseComplete | src/lib.rs:121-145 | every name in that layout is accepted, with its numerals' values |
| DirNames.ParseIff | src/lib.rs:121-145 | the parser returns a triple if and only if the name is in the layout for the platform with numerals of those values |
| DirNames.ParsePattern | src/lib.rs:121 | a name in any platform's layout is accepted exactly when its `_<os>_<arch>` suffix is the current platform's |
| DirNames.FormatDirName | src/lib.rs:151-153 | the installation directory name the offline path formats from a triple: each number written in decimal without leading zeros, in the installation layout |
| DirNames.FormatParseRoundTrip | src/lib.rs:121-153 | the directory name formatted from a triple parses back to that triple |
| DirNames.DirPatternInjective | src/lib.rs:121 | a name in the installation layout determines its three numerals |
| DirNames.TokensHaveNoUnderscore | src/lib.rs:7-16 | no platform token contains an underscore |
| DirNames.SuffixIdentifiesPlatform | src/lib.rs:121 | with underscore-free tokens, equal `_<os>_<arch>` suffixes mean equal platforms |
| DirNames.ForeignPlatformRejected | src/lib.rs:121 | another platform's installation directory is rejected, whatever its version |
| DirNames.OtherSupportedPlatformRejected | src/lib.rs:5-18 | for two different supported platforms, the directory formatted for one is rejected by the other's parser |
| DirNames.LeadingZeroReformatted | src/lib.rs:142-153 | the name formatted from the parsed triple is the listed name exactly when none of the three numerals has a leading zero |
| DirNames.OnlineDirectoryLayout | src/lib.rs:86-91 | the directory the online path unpacks release "v<a>.<b>.<c>" into is in the installation layout with numerals a, b, c |
| DirNames.OnlineDirectoryParses | src/lib.rs:86-91 | the directory the online path unpacks release "v<a>.<b>.<c>" into parses, for the same platform, to the triple (a, b, c) |
| Offline.Le | src/lib.rs:149 | the lexicographic order on (major, minor, patch) in which Rust compares the tuples `sort()` orders |
| Offline.LeIsTotalOrder | src/lib.rs:149 | the lexicographic order on triples is reflexive, antisymmetric, transitive and total |
| Offline.HarvestSnoc | src/lib.rs:128-146 | one more listing entry adds that entry's contribution at the end |
| Offline.HarvestMembers | src/lib.rs:128-146 | a triple is harvested exactly when a directory entry's name parses to it |
| Offline.CollectedSnoc | src/lib.rs:128-146 | a directory whose name parses adds its triple at the end; any other entry adds nothing |
| Offline.CollectedMembers | src/lib.rs:128-146 | a triple is collected exactly when a directory entry's name parses to it for the platform |
| Offline.CollectedExactlyInstallations | src/lib.rs:121-146 | a triple is collected exactly when a directory in the listing is named in the platform's layout with that version; files, other platforms' directories and other names are skipped |
| Offline.CollectTriples | src/lib.rs:124-147 | the scanning loop returns exactly the collected triples of the listing, in listing order |
| Offline.LatestInstalled | src/lib.rs:149-150 | the result is None exactly when nothing was collected; otherwise it is a collected triple that every collected triple is less than or equal to |
| Offline.SortedLastIsGreatest | src/lib.rs:149-150 | the last element of a sorted permutation of the triples is the greatest triple |
| Offline.GreatestUnique | src/lib.rs:149-150 | the greatest triple is unique, so sort-and-last and the max scan select the same one |
| Instances.LinuxAmd64Example | src/lib.rs:79-92 | for "v1.2.3" on linux/amd64 the asset is "mpls_1.2.3_linux_amd64.tar.gz" and the executable is "mpls_1.2.3_linux_amd64/mpls" |
| Instances.OwnInstallationCollected | src/lib.rs:139-146 | a listed installation directory of the platform adds its triple to what is collected |
| Instances.ForeignInstallationSkipped | src/lib.rs:139-146 | a listed installation directory of another platform adds nothing |
| Instances.TwoOwnOneForeign | src/lib.rs:128-146 | two installations of the platform followed by one of another platform collect the two own triples, in listing order |
| Instances.LinuxSelectionExample | src/lib.rs:121-150 | with 1.2.0 and 1.3.0 installed for linux/amd64 and 1.3.0 for darwin/amd64, Linux collects 1.2.0 and 1.3.0, and 1.3.0 is the greatest |
| Instances.Linux130Executable | src/lib.rs:151-153 | the executable formatted for 1.3.0 on linux/amd64 is "mpls_1.3.0_linux_amd64/mpls" |
| Instances.LinuxSelectionMarked | src/lib.rs:119-160 | offline resolution on 64-bit x86 Linux over that listing marks exactly "mpls_1.3.0_linux_amd64/mpls", succeeds exactly when marking it succeeds, and then caches it |
| Resolver.FindAsset | src/lib.rs:102-106 | None exactly when no asset has the name; otherwise the first asset with that name |
| Resolver.Mpls.constructor | src/lib.rs:164-168 | a new extension object has no cached path and an empty trace |
| Resolver.Mpls.Adopt | src/lib.rs:96-97 | the executable is marked executable; the path is cached exactly when that succeeds, and otherwise the error is returned with the cache unchanged |
| Resolver.Mpls.WhenOnline | src/lib.rs:62-117 | the online path as OnlineOutcome: platform error; or reuse of an unpacked executable; or an asset-missing error; or broadcast Downloading, download and mark; each failure is returned with the cache unchanged |
| Resolver.Mpls.WhenOffline | src/lib.rs:119-160 | the offline path as OfflineOutcome: platform or listing error; or the no-installation error with nothing touched; or marking and caching the executable of a greatest collected triple |
| Resolver.Mpls.FindLanguageServer | src/lib.rs:26-60 | resolution as FindOutcome: the cache, then the search path, then broadcast CheckingForUpdate and the release query, then the online path or, only when the query failed, the offline path |
| Resolver.Mpls.LanguageServerCommand | src/lib.rs:170-189 | resolution, followed by one last broadcast: Failed(<the error>) on failure, otherwise the cleared status and the cached path with exactly the three flags |
| Resolver.FindOutcomeCaches | src/lib.rs:25-39 | resolution succeeds exactly when the cache ends up set; a failure leaves the cache as it was; a set cache is never replaced |
| Resolver.OnlineReusesInstalled | src/lib.rs:94-99 | when the executable already exists, nothing is downloaded; the only host call marks it executable, and on success the cache is exactly that path |
| Resolver.OnlineAssetMissing | src/lib.rs:101-106 | with no unpacked copy and no asset of the archived name, the result is the asset-missing error, with no download and no change to the cache |
| Resolver.OnlineDownloadsOnlyTheAsset | src/lib.rs:102-114 | a download happens at most once, only when no unpacked copy exists, from the URL of an asset with the archived name, into the release's directory, as the platform's archive kind; the only path marked and cached is the release's executable |
| Resolver.OnlineInstallFoundOffline | src/lib.rs:86-121 | a release "v<a>.<b>.<c>" installed online caches an executable whose directory the offline parser reads back as (a, b, c) |
| Resolver.CanonicalVersionReformatted | src/lib.rs:86-92 | for a release "v<a>.<b>.<c>" with numerals without leading zeros, the executable the offline path formats from (a, b, c) is the release's executable |
| Resolver.OfflineReusesOnlineInstall | src/lib.rs:119-160 | when that release's directory is listed and its version is the greatest installed, the offline path marks and caches exactly the release's executable |
| Resolver.OfflineMarksGreatest | src/lib.rs:149-157 | whichever greatest triple the offline path picks, it marks and caches the executable formatted from that triple |
| Resolver.OfflineLeadingZeroElsewhere | src/lib.rs:142-157 | with a single listed installation in which any numeral has a leading zero, the executable marked is formatted from the triple and lies outside the listed directory |
| Resolver.OfflineSelectsLatest | src/lib.rs:119-160 | on success the cached executable, and the one path marked, is the one formatted from a triple that some listed installation of the platform carries and that is at least every such triple |
| Resolver.OfflineNoInstallation | src/lib.rs:149-150 | with no installation of the platform in the listing, the result is the no-installation error, with no host call and no change to the cache |
| Resolver.FindShortCircuits | src/lib.rs:31-39 | a cached path is kept, and a search-path hit is cached as it is; both succeed without a release query or any other host call |
| Resolver.NoOfflineAfterOnline | src/lib.rs:53-59 | after a successful release query only the release's executable is ever marked, even when the online path fails, so the offline path never runs |
| Resolver.UnsupportedArchitectureAfterQuery | src/lib.rs:42-52 | on an unsupported architecture, resolution fails with `ArchName(X86)` followed by " is not supported by MPLS" only after CheckingForUpdate and the release query, whichever path follows |
| Resolver.CommandTwice | src/lib.rs:31-34 | once a command is built, the next request returns the same command, whatever the host answers; its only host call clears the status |

## Left out

- Host calls are not executed:
  - The release query, `download_file`, `make_file_executable`,
    `worktree.which` and `zed::current_platform` are fields of the `Host`
    input, as are file existence and the directory listing.
  - Status broadcasts (`set_language_server_installation_status`), the
    release query, downloads and permission changes are recorded as events
    in a ghost trace. The search-path lookup and file existence leave no
    event.
  - Network access and archive extraction are not modelled.
- Filesystem access: `fs::exists` is a predicate on paths, and an I/O error
  reads as "does not exist", as `if let Ok(true)` does.
  - `current_dir` and `read_dir` become one listing. The per-entry read
    error, the file-type error and the invalid-UTF-8 name error
    (src/lib.rs:125-137) become one abstract listing failure, with its
    message.
- The `regex` crate: a hand-written parser stands in for the pattern at
  src/lib.rs:121. It is proved equivalent to the pattern's layout.
- Offline.CollectTriples: `usize` overflow in `parse()` (src/lib.rs:142-144)
  is not modelled. Triples are `nat`, so a numeral too large for `usize`
  parses here, where the source would panic.
- Resolver.Mpls.WhenOffline: `sort()` followed by `last()` (src/lib.rs:149-150)
  is modelled as a scan for the greatest triple. SortedLastIsGreatest and
  GreatestUnique show that both select the same triple.
- Resolver.OfflineSelectsLatest: does not promise that the cached
  executable lies in a listed directory. The source formats the path from
  the triple, so that holds only when the matched name has no leading zeros;
  OfflineLeadingZeroElsewhere shows the other case.
- Platform.CurrentPlatform: the error text uses the `Debug` rendering of the
  architecture, which the host crate defines. It is modelled as the variant's
  name, such as "X86".
- The release version slice `version[1..]` (src/lib.rs:81, 88) panics
  unless the version is non-empty and its first character is one byte.
  This is a precondition (`Sliceable`, `CanSliceVersion`), not a modelled
  panic.
- The `expect` in `language_server_command` (src/lib.rs:188) cannot fail in
  the model: LanguageServerCommand proves the cache is set on success.
- The language server id argument only tags status broadcasts, so it is
  not modelled.
- `zed::register_extension!` (src/lib.rs:192), and concurrency between
  extension instances sharing the working directory.
