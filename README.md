# tsm build resolution, modelled in Dafny

tsm is the Titanium SDK manager. This project models the part of it that decides which SDK
builds exist and which the user means:

- **Remote catalog.** It fetches the branch list and each branch's build index, then keeps the
  builds whose filename names the requested OS. It reads a version (`X.Y.Z`) and a 14-digit
  timestamp token out of each filename and decodes the token into a date. It keeps the builds
  that answer the query, then sorts them by date (`parseBuildList`, `parseDate`,
  `getAllBuilds`).
- **Local scanner.** It lists an SDK directory and reads each entry's `version.txt`
  (`key=value` lines). It skips entries without a `githash`, a `version` and a `timestamp`,
  keeps those that answer the query, and sorts them by date (`parseVersionFile`, `examineDir`,
  `findInstalled`).
- **Matcher.** A query selects a build when it is falsy, when the build's version satisfies it
  as a semantic-version range, or when it is a prefix of at least two characters of the git
  revision (`gitCheck`).
- **Reconciler.** It flags each offered build that is installed and appends the installed
  builds that nobody offers. It sorts the result by date (`mergeBuilds`).
- **Commands.** Each looks builds up and acts on the latest match:
  - `install` plans the download of the latest matching remote build;
  - `remove` names the directories of every matching installed SDK;
  - `builder` and `titanium` spawn the build scripts of the latest matching installed SDK;
  - `list` checks its options, runs both lookups and merges them.

Modules, one per file:

- `Wrappers`: Option and Result.
- `Errors`: the errors the system reports.
- `Text`: `indexOf`, `split` and `join` on strings.
- `Js`: JavaScript values, truthiness and `length`.
- `Timestamp`: the token and the `Date` setters.
- `Foreign`: the libraries the code calls, as parameters.
- `Matcher`.
- `Filename`: the two regular expressions.
- `Sorting`: `Array.prototype.sort` by a date key, in place on an array.
- `Catalog`.
- `VersionFile`.
- `Installed`.
- `Merge`.
- `Commands`.

Code that works step by step is modelled as methods with loops:
- `getAllBuilds`, `findInstalled` and `mergeBuilds`, including the map that `mergeBuilds`
  fills and deletes from;
- the setters `parseDate` calls on a `Date` object;
- the in-place sort.

Each of these is proved against a function that specifies it. Filters and parsers are
functions, with lemmas about them.

## Model

| member | source | states |
|---|---|---|
| Matcher.GitCheckIsPrefix | index.js:219-222 | `gitCheck` is true exactly when the query is a string of at least two characters that the revision starts with; falsy, one-character and non-string queries give false (array queries are not modelled; see "## Left out") |
| Matcher.GitCheckExamples | test.js:32-47 | the test suite's matching and invalid-input cases: `e721` matches its revision; `e2` matches only the revision that starts with it; `false`, `1` and an object never match |
| Matcher.SelectsIff | index.js:312-320 | a build passes the filter iff the query is falsy, or its version satisfies the query, or the query is a hash prefix of length > 1 of the revision |
| Timestamp.ParseDate | index.js:248-259 | starting from any current date, the setters leave a date whose fields are exactly those decoded from the token: year from digits 0-3, the month made 0-based, then day, hours, minutes, seconds |
| Timestamp.EncodeDecodeToken | index.js:252-256 | decoding a token gives fields in range, and encoding them gives the same token back |
| Timestamp.DecodeEncodeToken | index.js:252-256 | every field tuple in range is decoded from exactly the token that encodes it, so decoding loses nothing |
| Timestamp.DecodeExample | test.js:82-94 | `20120827132447` decodes to 2012, month 7 (August), day 27, 13:24:47 |
| Filename.MatchVersionIsLeftmostLongest | index.js:293-294 | the version taken is a whole match of `[0-9]*\.[0-9]*\.[0-9]*`; no match starts further left and none starting there is longer; with no match, no substring matches |
| Filename.VersionEndAtSound | index.js:293 | the greedy scan from a start position ends on a whole match of the version pattern |
| Filename.VersionEndAtComplete | index.js:293 | every whole match from a start position is covered by the greedy scan from there |
| Filename.MatchTokenFrom | index.js:297-298 | the token found is the leftmost run of 14 digits at or after the start; when none is found there is none |
| Filename.ExtractFromSdkFilename | index.js:292-298 | for a server filename `mobilesdk-X.Y.Z.v<14 digits>…` with one-digit version parts, the version is `X.Y.Z` and the token is the 14 digits after the `v` |
| Filename.SdkNameFields | index.js:292-298 | a filename assembled from a one-digit-part version, a token and an OS yields that version and that token |
| Catalog.ShortHash | index.js:301 | the short hash is a prefix of the revision, of length 7 or the whole revision when shorter |
| Catalog.Annotate | index.js:292-310 | a record yields a build iff both the version and the token are found. The build keeps the record, takes the leftmost version, and decodes its date from the token. Its zip url is the base url, branch, `/` and filename. Its short hash is the revision's |
| Catalog.ParseBuildListMembers | index.js:286-323 | a build is in the result iff some record yields it through the OS rule, the annotation and the query rule |
| Catalog.ParseBuildListIsSubsequence | index.js:287 | the kept builds come from the input records in their original order (a filter) |
| Catalog.ParseBuildListFields | index.js:286-323 | every kept build: names the OS when one is given, comes from the input, has a well-formed leftmost version, a date from its token, the 7-character short hash, the zip url, and answers the query |
| Catalog.ParseBuildListComplete | index.js:286-323 | every record that names the OS, has a version and a token, and answers the query is kept |
| Catalog.ParseBuildListNoQuery | index.js:318-320 | with a falsy query, the records kept are exactly the records of the right OS whose filename yields a version and a token, in their original order |
| Catalog.MalformedFilenameDropped | index.js:303-310 | a filename with fewer than two dots has no version, and its record is dropped without failing the list |
| Catalog.FetchAllFirstFailure | index.js:357-366 | the branch-by-branch reduction succeeds iff every branch index is fetched; otherwise it reports the first failing branch's error |
| Catalog.GetAllBuilds | index.js:353-378 | the result is a fetch error, or the filtered builds of all branches, sorted by date and the same multiset as `parseBuildList` of the concatenated indexes |
| Catalog.BranchesErrorLostAsWritten | index.js:356-357 | as written, a failure to fetch the branch list never reaches the caller as that failure (see Findings) |
| Catalog.ParseBuildListHashExample | test.js:144-151 | on the test suite's four records, query `79e9` with OS `linux` keeps exactly the build with sha1 `a0c6a6cb…` |
| Catalog.ParseBuildListVersionExample | test.js:153-160 | on the same records, query `2.1` with OS `win32` keeps exactly the build with sha1 `2a60ec1e…`, given that `2.1.0` satisfies `2.1` and `2.2.0` does not |
| Catalog.KeepOtherOs | index.js:288 | a record whose filename lacks a character of the requested OS fails `indexOf(os)` and is dropped |
| Catalog.OsQueryOnFixture | test.js:136-142 | on the test suite's four records, every build that query `null` with OS `osx` keeps names neither `win32` nor `linux` |
| VersionFile.LineParts | index.js:387-388 | a line's key is the text before its first `=`, and the whole line when it holds no `=`; it has a value iff it holds `=`; the value runs from the first `=` to the next `=` or the end |
| VersionFile.LineRoundTrip | index.js:387-388 | `key=value` with no `=` in either reads back as that key and that value |
| VersionFile.FoldLookup | index.js:384-391 | a key is in the record iff some non-empty line defines it; the last line that defines it gives its value; empty lines are skipped |
| VersionFile.ParseRender | index.js:384-391 | rendering entries as `key=value` lines and parsing them gives back the entries, later ones overwriting earlier ones |
| VersionFile.ExamineDir | index.js:399-407 | a read error is passed on; a record lacking a non-empty `githash`, `version` or `timestamp` is `InvalidSdk`; otherwise it is the parsed record |
| VersionFile.ExamineRenderedDir | index.js:399-407 | a well-formed version file with the three fields passes `examineDir` with those values |
| VersionFile.ParseVersionFileExample | test.js:264-277 | the test suite's file reads back version `2.1.0`, timestamp `05/02/12 14:18` and githash `cde5b27` |
| Installed.Examine | index.js:421-441 | an entry yields a build iff its `version.txt` is read, is complete, and answers the query (version range or prefix of the short hash). The build carries the record's fields, the date from `new Date(timestamp)`, and the joined directory |
| Installed.InstalledMembers | index.js:421-444 | a build is found iff some directory entry yields it; unreadable or incomplete entries are skipped, not reported |
| Installed.InstalledValid | index.js:421-441 | every build found comes from a readable, complete version file and answers the query |
| Installed.InstalledComplete | index.js:421-441 | every entry with a readable, complete version file that answers the query is found |
| Installed.FindInstalled | index.js:416-455 | a listing error is passed on; otherwise the result is every matching entry, sorted by date |
| Sorting.SortByKey | index.js:369-371 | the sort leaves the array ordered by date and a permutation of what it held |
| Sorting.PoppedIsLatest | index.js:39 | the last element of the sorted array is a build with the latest date |
| Merge.IndexByHashSpec | index.js:465-468 | the index holds exactly the installed short hashes, each mapped to the last installed build with that hash |
| Merge.FlagSpec | index.js:476-482 | every offered build comes out once, in order. It is flagged installed iff its hash is in the index and no earlier offered build had that hash. The index left over lacks exactly the offered hashes |
| Merge.LeftoversCount | index.js:484-488 | one leftover per hash that is still indexed and installed |
| Merge.MergedCount | index.js:462-495 | the merged list has one entry per offered build plus one per installed hash that no offered build carries |
| Merge.MergedOffered | index.js:476-482 | the merged list starts with the offered builds in order, flagged as above |
| Merge.MergedLeftovers | index.js:484-488 | the rest are installed builds that no offered build carries, each flagged installed, each the last installed build with its hash, no hash twice |
| Merge.MergedCoversInstalled | index.js:484-488 | every installed hash that no offered build carries appears among the leftovers |
| Merge.MergedDistinct | index.js:462-495 | when the offered builds have distinct hashes, the merged list holds each hash once |
| Merge.MergeBuilds | index.js:462-495 | the method returns the merged list sorted by date: sorted, and the same multiset as `Merged`, the flagged offered builds followed by the leftovers |
| Merge.MergeExample | test.js:332-407 | the test suite's three offered and three installed builds merge into five entries: `c63b0d9` once and installed; `79e9c73` once and not installed; `61078b0` once and installed |
| Commands.Install | index.js:33-42 | a lookup error is passed on; no match gives "no matching SDK versions". Otherwise the download is the latest matching build: its zip url, `path.join(output, filename)`, and `output + "/" + filename` removed afterwards |
| Commands.Remove | index.js:84-95 | a lookup error is passed on; no match gives "no matched builds"; otherwise the directories of the matching SDKs, in date order, one per SDK (the directories of a sorted permutation of the matches) |
| Commands.LatestInstalled | index.js:157-160 | the same errors; otherwise a matching installed SDK with the latest date |
| Commands.Builder | index.js:152-171 | on the latest matching SDK, spawns the interpreter the options name (default `python`) with `<dir>/<os>/builder.py` and the arguments. The exit code 0 reports no error; any other code reports `Exited(code)` |
| Commands.Titanium | index.js:183-202 | the same with `<dir>/titanium.py` |
| Commands.BuilderCommandExample | test.js:574-588 | the test's call spawns `python` on `iphone/builder.py` followed by `foo` and `bar` |
| Commands.ExitError | index.js:166-168 | no error iff the child exits with code 0, otherwise an exit error carrying that code |
| Commands.PythonOptionIgnoredAsWritten | index.js:154-162 | as written, an interpreter named in the options is never the one spawned (see Findings) |
| Commands.List | index.js:109-139 | see the four points below the table |

`Commands.List` states:
- a non-string `os` is `TypeError("options.os is required")`;
- a truthy `installed` without a string `dir` is `TypeError("options.dir is required for options.installed")`;
- otherwise the call fails iff a requested lookup fails, with the error of a failed lookup;
- otherwise the result is the sorted merge of the requested lookups, where a lookup not
  requested contributes nothing.

## Left out

- **HTTP.** `getBranches` and `getBuilds` are inputs: the branch list and a per-branch fetcher,
  each a success or an error. Status codes and JSON parsing are not modelled.
- **Directory listing and file reads.** `fs.readdir` and `fs.readFile` are inputs.
- **Side effects of the commands.** The request stream, `unzip`, `fs.unlink`, `rimraf` and
  `spawn` are left out. A command returns the download, directories or command it would act
  on; a child's exit code is a parameter.
- Commands.ExitError: takes the exit code as an integer. Node reports a `null` code when a
  signal kills the child, and the source then reports "process exited with code: null"; that
  case is not modelled.
- **Events.** Emitters, progress events and their arithmetic are left out. So are `options.emitter`
  and the callbacks' asynchrony.
- **Libraries.** `semver.satisfies`, `new Date(text)`, `Date.prototype.getTime` and
  `path.join` are parameters (`Foreign.Host`). The three-argument `path.join` is modelled
  as two nested joins.
- **Date normalisation.** Out-of-range fields set through `setFullYear` and friends are not
  normalised, the milliseconds left from `new Date()` are not modelled, and `NaN` dates are
  not modelled.
- **Dates from text.** `new Date(timestamp)` in `findInstalled` is the abstract `dateOfText`.
- **In-place updates of records.** `parseBuildList` attaches fields to the wire records and
  `mergeBuilds` sets `installed` on them. Both are modelled as fresh values, so aliasing of the
  caller's objects is not captured.
- **`Object.keys` order.** The leftovers of `mergeBuilds` are taken in the order the hashes
  were first indexed. That is `Object.keys` order except for integer-like keys. This only
  affects order before the final sort.
- **Inherited keys of `installedByHash`.** The model treats every short hash as an own key of
  a plain map. In the source, names inherited from `Object.prototype` change both the flags and
  the members of the result. An offered build whose short hash is `valueOf` or `constructor`
  is flagged installed although nothing is installed (index.js:477). An installed `githash` of
  `__proto__`, which a version file can hold, replaces the index's prototype instead of adding a
  key (index.js:467). That build is then missing from the leftovers, and later lookups read its
  properties. `parseVersionFile` builds its record in a plain `{}` too (index.js:385-390). A
  `__proto__=x` line goes through the prototype setter there, which ignores a string, so the
  source's record has no `__proto__` key. The model's record maps `__proto__` to `x`, and
  `VersionFile.FoldLookup` counts it as defined. `examineDir` reads only `githash`, `version`
  and `timestamp`, so this changes no SDK that `findInstalled` accepts. None of this is
  modelled.
- **Thrown errors.** `list` throws its two `TypeError`s synchronously (index.js:110-113): `done`
  is never called and no emitter is returned. `Commands.List` models the throw as a failed
  result.
- Sorting.SortByKey: promises ordering and permutation only, not which of two equal dates
  comes first, because `Array.prototype.sort` was not guaranteed stable.
- Commands.List: states that the error is the error of some failed lookup, not which one,
  because `async.parallel` reports whichever failure arrives first.
- Commands.List: takes `options.os` and `options.dir` as JavaScript values. `os` passed on to
  the lookups is a string, where `""` behaves as an absent OS. `options.args` is a list of
  strings (absent = empty), and `options.python` is a string (absent = `""`).
- **Test fixtures.** In the fixture lemmas (`Catalog.*Example`, `Catalog.OsQueryOnFixture`), the
  versions and timestamp tokens of the test records are parameters, not the literal
  filenames; the hashes, urls and OS names are literal.
- **Duplicate short hashes in `mergeBuilds`.** This is a description of the code, not an
  omission: the model keeps it as written. The code keeps every offered build. If two offered
  builds share a short hash, both appear and only the first is flagged installed
  (index.js:476-482). `Merge.MergedDistinct` proves one entry per hash when the offered hashes
  are distinct.
- **Array queries.** Not modelled: `Js.Value` has no array case. In the source an array query
  reaches `indexOf` as its comma-joined string, so `gitCheck(['e7', '21'], rev)` holds when
  `rev` starts with `e7,21`. No hexadecimal revision does.

## Findings

| source | as written | input that shows it | evidently intended | confidence | as-written member | corrected member |
|---|---|---|---|---|---|---|
| index.js:356-357 | `getAllBuilds` ignores the error that `getBranches` reports and hands `undefined` to `async.reduce`. `async.reduce` then reads its `length`, so a `TypeError` escapes instead of the fetch error | `branches.json` answers HTTP 404, so `getBranches` calls back with `Error("HTTP 404")` | the fetch error reaches `done` | medium, not executed (depends on how the async library treats `undefined`) | Catalog.BranchesErrorLostAsWritten (with Catalog.FetchAllAsWritten) | Catalog.GetAllBuilds |
| index.js:154-162, index.js:185-193 | `builder` and `titanium` default `options.python` but spawn the literal `'python'` | `options.python = "/usr/bin/python2.7"` still spawns `python` | the interpreter named in the options is spawned | high, not executed | Commands.PythonOptionIgnoredAsWritten (with Commands.ProgramAsWritten) | Commands.Builder, Commands.Titanium (through Commands.Program) |
