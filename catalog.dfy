/** The remote catalogue: the filter `parseBuildList` applies to the build server's records, and
    `getAllBuilds`, which gathers every branch's records, filters them and orders them by date. */
module Catalog {
  import opened Wrappers
  import opened Js
  import opened Text
  import opened Timestamp
  import opened Foreign
  import opened Matcher
  import opened Filename
  import opened Errors
  import opened Sorting

  /** One entry of a branch's `index.json`. */
  datatype RawBuild = RawBuild(
    sha1: string,
    buildUrl: string,
    gitRevision: string,
    filename: string,
    gitBranch: string,
    buildType: string,
    size: int)

  /** A record `parseBuildList` kept, with the fields it attaches. */
  datatype Build = Build(raw: RawBuild, version: string, date: DateFields, zip: string, githash: string)

  /** Where the archives live; a build's archive is under its branch. */
  const ZipUrl: string := "http://builds.appcelerator.com.s3.amazonaws.com/mobile/"

  /** `revision.slice(0, 7)`. */
  function ShortHash(revision: string): (h: string)
    ensures h <= revision
    ensures |h| == if |revision| < 7 then |revision| else 7
  {
    if |revision| <= 7 then revision else revision[..7]
  }

  /** The OS rule: an empty `os` keeps everything, otherwise the filename must contain it. */
  predicate OsMatches(os: string, filename: string)
  {
    os == "" || Contains(filename, os)
  }

  /** The fields `parseBuildList` attaches to a record, or `None` when the filename yields no
      version or no timestamp (the record is then dropped with a warning). */
  function Annotate(raw: RawBuild): (r: Option<Build>)
    ensures r.Some? <==> ExtractVersion(raw.filename).Some? && ExtractToken(raw.filename).Some?
    ensures r.Some? ==> r.value.raw == raw && Some(r.value.version) == ExtractVersion(raw.filename)
    ensures r.Some? ==> IsToken(ExtractToken(raw.filename).value)
                        && r.value.date == DecodeToken(ExtractToken(raw.filename).value)
    ensures r.Some? ==> r.value.githash == ShortHash(raw.gitRevision)
    ensures r.Some? ==> r.value.zip == ZipUrl + raw.gitBranch + "/" + raw.filename
  {
    var version := ExtractVersion(raw.filename);
    var token := ExtractToken(raw.filename);
    if version.None? || token.None? then None
    else
      Some(Build(raw, version.value, DecodeToken(token.value),
                 ZipUrl + raw.gitBranch + "/" + raw.filename, ShortHash(raw.gitRevision)))
  }

  /** The `filter` callback of `parseBuildList`: the OS rule, then the validity rule, then the
      query rule. */
  function Keep(host: Host, input: Value, os: string, raw: RawBuild): Option<Build>
  {
    if !OsMatches(os, raw.filename) then None
    else
      match Annotate(raw)
      case None => None
      case Some(b) => if Selects(host, input, b.version, raw.gitRevision) then Some(b) else None
  }

  /** The records `parseBuildList` keeps, in their original order. */
  function ParseBuildList(host: Host, input: Value, os: string, builds: seq<RawBuild>): (r: seq<Build>)
    ensures |r| <= |builds|
  {
    if builds == [] then []
    else
      var rest := ParseBuildList(host, input, os, builds[1..]);
      match Keep(host, input, os, builds[0])
      case Some(b) => [b] + rest
      case None => rest
  }

  /** `xs` can be obtained from `ys` by deleting elements. */
  predicate IsSubsequence<T(==)>(xs: seq<T>, ys: seq<T>)
    decreases |ys|
  {
    if xs == [] then true
    else if ys == [] then false
    else if xs[0] == ys[0] then IsSubsequence(xs[1..], ys[1..])
    else IsSubsequence(xs, ys[1..])
  }

  function Raws(bs: seq<Build>): (rs: seq<RawBuild>)
    ensures |rs| == |bs| && forall k :: 0 <= k < |bs| ==> rs[k] == bs[k].raw
  {
    if bs == [] then [] else [bs[0].raw] + Raws(bs[1..])
  }

  /** The kept records are exactly the annotations of the records the filter accepts. */
  lemma ParseBuildListMembers(host: Host, input: Value, os: string, builds: seq<RawBuild>, b: Build)
    ensures b in ParseBuildList(host, input, os, builds) <==>
      exists j :: 0 <= j < |builds| && Keep(host, input, os, builds[j]) == Some(b)
  {
    if b in ParseBuildList(host, input, os, builds) {
      KeptFromSome(host, input, os, builds, b);
    }
    if exists j :: 0 <= j < |builds| && Keep(host, input, os, builds[j]) == Some(b) {
      var j :| 0 <= j < |builds| && Keep(host, input, os, builds[j]) == Some(b);
      SomeIsKept(host, input, os, builds, j);
    }
  }

  /** Every kept build is the annotation of some record the filter accepts. */
  lemma {:induction false} KeptFromSome(host: Host, input: Value, os: string, builds: seq<RawBuild>, b: Build)
    requires b in ParseBuildList(host, input, os, builds)
    ensures exists j :: 0 <= j < |builds| && Keep(host, input, os, builds[j]) == Some(b)
  {
    if Keep(host, input, os, builds[0]) != Some(b) {
      KeptFromSome(host, input, os, builds[1..], b);
      var j :| 0 <= j < |builds[1..]| && Keep(host, input, os, builds[1..][j]) == Some(b);
      assert builds[j + 1] == builds[1..][j];
    }
  }

  /** Every record the filter accepts is kept. */
  lemma {:induction false} SomeIsKept(host: Host, input: Value, os: string, builds: seq<RawBuild>, j: int)
    requires 0 <= j < |builds| && Keep(host, input, os, builds[j]).Some?
    ensures Keep(host, input, os, builds[j]).value in ParseBuildList(host, input, os, builds)
  {
    if j > 0 {
      SomeIsKept(host, input, os, builds[1..], j - 1);
      assert builds[1..][j - 1] == builds[j];
    }
  }

  /** The result keeps the input's order: its records form a subsequence of the input. */
  lemma {:induction false} ParseBuildListIsSubsequence(host: Host, input: Value, os: string, builds: seq<RawBuild>)
    ensures IsSubsequence(Raws(ParseBuildList(host, input, os, builds)), builds)
  {
    if builds != [] {
      var rest := ParseBuildList(host, input, os, builds[1..]);
      ParseBuildListIsSubsequence(host, input, os, builds[1..]);
      match Keep(host, input, os, builds[0])
      case Some(b) =>
        assert Raws([b] + rest)[1..] == Raws(rest);
      case None =>
        SubsequenceDropHead(Raws(rest), builds);
    }
  }

  /** A subsequence of the tail is a subsequence of the whole. */
  lemma {:induction false} SubsequenceDropHead<T>(xs: seq<T>, ys: seq<T>)
    requires ys != [] && IsSubsequence(xs, ys[1..])
    ensures IsSubsequence(xs, ys)
    decreases |ys|, |xs|
  {
    if xs != [] && xs[0] == ys[0] {
      SubsequenceDropFirst(xs, ys[1..]);
    }
  }

  /** Dropping the first element of a subsequence leaves a subsequence. */
  lemma {:induction false} SubsequenceDropFirst<T>(xs: seq<T>, ys: seq<T>)
    requires xs != [] && IsSubsequence(xs, ys)
    ensures IsSubsequence(xs[1..], ys)
    decreases |ys|, |xs|
  {
    if xs[0] != ys[0] {
      SubsequenceDropFirst(xs, ys[1..]);
    }
    if xs[1..] != [] {
      SubsequenceDropHead(xs[1..], ys);
    }
  }

  /** What every kept build satisfies: it passed the OS rule and the query rule, its version is
      the leftmost version match of its filename, its date comes from the leftmost 14-digit
      token, its short hash is the first 7 characters of its revision and its archive URL is
      under its branch. */
  lemma ParseBuildListFields(host: Host, input: Value, os: string, builds: seq<RawBuild>, b: Build)
    requires b in ParseBuildList(host, input, os, builds)
    ensures os != "" ==> Contains(b.raw.filename, os)
    ensures b.raw in builds
    ensures Some(b.version) == ExtractVersion(b.raw.filename) && Shaped(b.version)
    ensures ExtractToken(b.raw.filename).Some? && b.date == DecodeToken(ExtractToken(b.raw.filename).value)
    ensures b.githash <= b.raw.gitRevision
    ensures |b.githash| == if |b.raw.gitRevision| < 7 then |b.raw.gitRevision| else 7
    ensures b.zip == ZipUrl + b.raw.gitBranch + "/" + b.raw.filename
    ensures Selects(host, input, b.version, b.raw.gitRevision)
  {
    ParseBuildListMembers(host, input, os, builds, b);
    var j :| 0 <= j < |builds| && Keep(host, input, os, builds[j]) == Some(b);
    MatchVersionIsLeftmostLongest(b.raw.filename);
  }

  /** A filename with fewer than two dots has no version, so its build is dropped: a malformed
      filename is skipped rather than failing the whole list. */
  lemma MalformedFilenameDropped(host: Host, input: Value, os: string, raw: RawBuild)
    requires Dots(raw.filename) < 2
    ensures Keep(host, input, os, raw).None?
  {
    var s := raw.filename;
    MatchVersionIsLeftmostLongest(s);
    if MatchVersion(s).Some? {
      var (p, e) := MatchVersion(s).value;
      assert s == s[..p] + s[p..e] + s[e..];
      DotsAppend(s[..p], s[p..e]);
      DotsAppend(s[..p] + s[p..e], s[e..]);
    }
  }

  /** Every record that passes the OS rule, yields a version and a token, and answers the query
      is kept: nothing valid is lost. */
  lemma ParseBuildListComplete(host: Host, input: Value, os: string, builds: seq<RawBuild>, j: int)
    requires 0 <= j < |builds| && OsMatches(os, builds[j].filename)
    requires ExtractVersion(builds[j].filename).Some? && ExtractToken(builds[j].filename).Some?
    requires Selects(host, input, ExtractVersion(builds[j].filename).value, builds[j].gitRevision)
    ensures Annotate(builds[j]).Some? && Annotate(builds[j]).value in ParseBuildList(host, input, os, builds)
  {
    ParseBuildListMembers(host, input, os, builds, Annotate(builds[j]).value);
  }

  /** With no query (a falsy one) the filter keeps exactly the valid records of the right OS. */
  lemma {:induction false} ParseBuildListNoQuery(host: Host, input: Value, os: string, builds: seq<RawBuild>)
    requires !Truthy(input)
    ensures Raws(ParseBuildList(host, input, os, builds)) == ValidFor(os, builds)
  {
    if builds != [] {
      ParseBuildListNoQuery(host, input, os, builds[1..]);
      var rest := ParseBuildList(host, input, os, builds[1..]);
      match Keep(host, input, os, builds[0])
      case Some(b) =>
        assert Raws([b] + rest) == [b.raw] + Raws(rest);
      case None =>
    }
  }

  /** The records of the given OS whose filename yields a version and a token. */
  function ValidFor(os: string, builds: seq<RawBuild>): (r: seq<RawBuild>)
    ensures forall raw :: raw in r ==> raw in builds && OsMatches(os, raw.filename) && Annotate(raw).Some?
  {
    if builds == [] then []
    else if OsMatches(os, builds[0].filename) && Annotate(builds[0]).Some? then [builds[0]] + ValidFor(os, builds[1..])
    else ValidFor(os, builds[1..])
  }

  /** The ordering key of `getAllBuilds`' sort: `date.getTime()`. */
  function BuildTime(host: Host): Build -> int
  {
    (b: Build) => host.getTime(b.date)
  }

  /** `async.reduce` over the branch names with `memo.concat(builds)`: the branches' records
      concatenated in branch order, or the first failure. */
  function FetchAll(branches: seq<string>, index: string -> Result<seq<RawBuild>, Error>): Result<seq<RawBuild>, Error>
  {
    if branches == [] then Success([])
    else
      match index(branches[0])
      case Failure(e) => Failure(e)
      case Success(bs) =>
        match FetchAll(branches[1..], index)
        case Failure(e) => Failure(e)
        case Success(rest) => Success(bs + rest)
  }

  /** The reduction fails exactly when some branch's index cannot be fetched, and it then
      reports the first such branch's error. */
  lemma {:induction false} FetchAllFirstFailure(branches: seq<string>, index: string -> Result<seq<RawBuild>, Error>)
    ensures FetchAll(branches, index).Success? <==>
            forall i :: 0 <= i < |branches| ==> index(branches[i]).Success?
    ensures FetchAll(branches, index).Failure? ==>
            exists i :: 0 <= i < |branches| && index(branches[i]) == Failure(FetchAll(branches, index).error) &&
                        forall h :: 0 <= h < i ==> index(branches[h]).Success?
  {
    if branches != [] {
      FetchAllFirstFailure(branches[1..], index);
      if index(branches[0]).Success? {
        if FetchAll(branches[1..], index).Failure? {
          var i :| 0 <= i < |branches[1..]| && index(branches[1..][i]) == Failure(FetchAll(branches[1..], index).error) &&
                   forall h :: 0 <= h < i ==> index(branches[1..][h]).Success?;
          assert index(branches[i + 1]) == Failure(FetchAll(branches, index).error);
          forall h | 0 <= h < i + 1 ensures index(branches[h]).Success? {
            if h > 0 {
              assert branches[h] == branches[1..][h - 1];
            }
          }
        } else {
          forall i | 0 <= i < |branches| ensures index(branches[i]).Success? {
            if i > 0 {
              assert branches[i] == branches[1..][i - 1];
            }
          }
        }
      }
    }
  }

  /** The records fetched so far, `memo`, in front of what the remaining branches yield. */
  function Prepend(memo: seq<RawBuild>, r: Result<seq<RawBuild>, Error>): Result<seq<RawBuild>, Error>
  {
    match r
    case Success(rest) => Success(memo + rest)
    case Failure(e) => Failure(e)
  }

  /** `getAllBuilds`, given the outcome of fetching the branch list and a fetcher for one
      branch's index: fetches branch by branch, filters with `parseBuildList` and sorts by date.
      A failure to fetch the branch list is reported (see the Findings of the README for the
      code as written). */
  method GetAllBuilds(host: Host, input: Value, os: string, branches: Result<seq<string>, Error>,
                      index: string -> Result<seq<RawBuild>, Error>)
    returns (r: Result<seq<Build>, Error>)
    ensures branches.Failure? ==> r == Failure(branches.error)
    ensures branches.Success? && FetchAll(branches.value, index).Failure? ==>
            r == Failure(FetchAll(branches.value, index).error)
    ensures branches.Success? && FetchAll(branches.value, index).Success? ==>
            r.Success? && SortedBy(r.value, BuildTime(host)) &&
            multiset(r.value) == multiset(ParseBuildList(host, input, os, FetchAll(branches.value, index).value))
  {
    if branches.Failure? {
      return Failure(branches.error);
    }
    var names := branches.value;
    var memo: seq<RawBuild> := [];
    var i := 0;
    assert names[i..] == names;
    if FetchAll(names, index).Success? {
      assert memo + FetchAll(names, index).value == FetchAll(names, index).value;
    }
    while i < |names|
      invariant 0 <= i <= |names|
      invariant FetchAll(names, index) == Prepend(memo, FetchAll(names[i..], index))
    {
      assert names[i..][1..] == names[i + 1..];
      var fetched := index(names[i]);
      if fetched.Failure? {
        return Failure(fetched.error);
      }
      if FetchAll(names[i + 1..], index).Success? {
        assert memo + (fetched.value + FetchAll(names[i + 1..], index).value)
            == (memo + fetched.value) + FetchAll(names[i + 1..], index).value;
      }
      memo := memo + fetched.value;
      i := i + 1;
    }
    assert names[i..] == [];
    assert memo + [] == memo;
    var kept := ParseBuildList(host, input, os, memo);
    var a := new Build[|kept|](k requires 0 <= k < |kept| => kept[k]);
    assert a[..] == kept;
    SortByKey(a, BuildTime(host));
    r := Success(a[..]);
  }

  /** What `getAllBuilds` hands on to the reduction as written: the branch list when it was
      fetched, and otherwise `undefined`, whose `length` the reduction then reads. */
  function FetchAllAsWritten(branches: Result<seq<string>, Error>, index: string -> Result<seq<RawBuild>, Error>)
    : Result<seq<RawBuild>, Error>
  {
    match branches
    case Success(names) => FetchAll(names, index)
    case Failure(_) => Failure(TypeError("Cannot read property 'length' of undefined"))
  }

  /** As written, the error from fetching the branch list never reaches the caller: whatever it
      was, what surfaces is a `TypeError` thrown from inside the reduction. */
  lemma BranchesErrorLostAsWritten(e: Error, index: string -> Result<seq<RawBuild>, Error>)
    requires !e.TypeError?
    ensures FetchAllAsWritten(Failure(e), index).Failure?
    ensures FetchAllAsWritten(Failure(e), index).error != e
  {
  }

  /** The test suite's four-record fixture, with its versions and timestamp tokens left as
      parameters: the suite's filenames are mobilesdk-2.1.0.v20120827132447-win32.zip and
      mobilesdk-2.2.0.v20120827143312-{osx,linux,win32}.zip, so `v1` is "2.1.0", `v2` is "2.2.0",
      `t1` is "20120827132447" and `t2` is "20120827143312". */
  predicate IsFixture(list: seq<RawBuild>, v1: string, t1: string, v2: string, t2: string)
  {
    && OneDigitVersion(v1) && OneDigitVersion(v2) && IsToken(t1) && IsToken(t2)
    && list == [
      RawBuild("2a60ec1e0b693047e6fa9112fe93944c5432a3c3",
               "http://jenkins.appcelerator.org/job/titanium_mobile_master/1277/",
               "c63b0d947da94e2cdfb3fb06e95106cb803c3f22",
               SdkName(v1, t1, "win32"), "master", "mobile", 26961576),
      RawBuild("7be939ed222691536b8b32ad0782e4729a9d447c",
               "http://jenkins.appcelerator.org/job/titanium_mobile_master/1278/",
               "79e9c73d5070fc4306d37bc1cf8cbabb2ad67ae8",
               SdkName(v2, t2, "osx"), "master", "mobile", 80186079),
      RawBuild("a0c6a6cbf334752cf9e2f23be37ee11e63af0a1b",
               "http://jenkins.appcelerator.org/job/titanium_mobile_master/1278/",
               "79e9c73d5070fc4306d37bc1cf8cbabb2ad67ae8",
               SdkName(v2, t2, "linux"), "master", "mobile", 26960385),
      RawBuild("92ffcd16454b38d8eca203a4b36352ec140504ec",
               "http://jenkins.appcelerator.org/job/titanium_mobile_master/1278/",
               "79e9c73d5070fc4306d37bc1cf8cbabb2ad67ae8",
               SdkName(v2, t2, "win32"), "master", "mobile", 26961706)]
  }

  /** The kept annotation, as a sequence of zero or one builds. */
  function Kept(o: Option<Build>): seq<Build>
  {
    if o.Some? then [o.value] else []
  }

  /** The filter over a four-record list, record by record. */
  lemma ParseBuildListOfFour(host: Host, input: Value, os: string, list: seq<RawBuild>)
    requires |list| == 4
    ensures ParseBuildList(host, input, os, list) ==
            Kept(Keep(host, input, os, list[0])) + (Kept(Keep(host, input, os, list[1])) +
            (Kept(Keep(host, input, os, list[2])) + Kept(Keep(host, input, os, list[3]))))
  {
    var l1, l2, l3 := list[1..], list[2..], list[3..];
    assert l1[1..] == l2 && l2[1..] == l3 && l3[1..] == [];
    ParseBuildListCons(host, input, os, list);
    ParseBuildListCons(host, input, os, l1);
    ParseBuildListCons(host, input, os, l2);
    ParseBuildListCons(host, input, os, l3);
    assert l1[0] == list[1] && l2[0] == list[2] && l3[0] == list[3];
    assert Kept(Keep(host, input, os, list[3])) + [] == Kept(Keep(host, input, os, list[3]));
  }

  /** The filter's first step: the first record's outcome in front of the rest's. */
  lemma ParseBuildListCons(host: Host, input: Value, os: string, list: seq<RawBuild>)
    requires list != []
    ensures ParseBuildList(host, input, os, list) ==
            Kept(Keep(host, input, os, list[0])) + ParseBuildList(host, input, os, list[1..])
  {
    if Keep(host, input, os, list[0]).None? {
      assert Kept(Keep(host, input, os, list[0])) == [];
    }
  }

  /** A record of another OS is dropped: one of the OS's characters is missing from its name. */
  lemma KeepOtherOs(host: Host, input: Value, os: string, raw: RawBuild, c: char)
    requires c in os && c !in raw.filename
    ensures Keep(host, input, os, raw).None?
  {
    MissingCharNotContained(raw.filename, os, c);
  }

  /** A record of the OS, named by the naming scheme, is kept exactly when it answers the query. */
  lemma KeepSdkName(host: Host, input: Value, os: string, raw: RawBuild, v: string, t: string)
    requires raw.filename == SdkName(v, t, os) && OneDigitVersion(v) && IsToken(t)
    ensures Keep(host, input, os, raw).Some? <==> Selects(host, input, v, raw.gitRevision)
  {
    SdkNameContainsOs(v, t, os);
    SdkNameFields(v, t, os);
  }

  /** '79e9' is a prefix of the 2.2.0 records' revision and '2.1' is not. */
  lemma FixtureRevisions(list: seq<RawBuild>, v1: string, t1: string, v2: string, t2: string)
    requires IsFixture(list, v1, t1, v2, t2)
    ensures GitCheck(Str("79e9"), list[2].gitRevision)
    ensures !GitCheck(Str("2.1"), list[3].gitRevision)
  {
    GitCheckIsPrefix(Str("79e9"), list[2].gitRevision);
    GitCheckIsPrefix(Str("2.1"), list[3].gitRevision);
    assert list[3].gitRevision[0] != "2.1"[0];
  }

  /** The fixture's filenames, record by record. */
  lemma FixtureNames(list: seq<RawBuild>, v1: string, t1: string, v2: string, t2: string)
    requires IsFixture(list, v1, t1, v2, t2)
    ensures |list| == 4
    ensures list[0].filename == SdkName(v1, t1, "win32") && list[1].filename == SdkName(v2, t2, "osx")
    ensures list[2].filename == SdkName(v2, t2, "linux") && list[3].filename == SdkName(v2, t2, "win32")
  {
  }

  /** The filename of any one fixture record is one of the four names. */
  lemma FixtureName(list: seq<RawBuild>, v1: string, t1: string, v2: string, t2: string, j: int)
    requires IsFixture(list, v1, t1, v2, t2) && 0 <= j < |list|
    ensures list[j].filename == SdkName(v1, t1, "win32") || list[j].filename == SdkName(v2, t2, "osx") ||
            list[j].filename == SdkName(v2, t2, "linux") || list[j].filename == SdkName(v2, t2, "win32")
  {
    FixtureNames(list, v1, t1, v2, t2);
  }

  /** Of the fixture's four names, only the osx one contains `osx`, and it names neither
      `win32` nor `linux`. */
  lemma OsxNameOnly(v1: string, t1: string, v2: string, t2: string, f: string)
    requires OneDigitVersion(v1) && OneDigitVersion(v2) && IsToken(t1) && IsToken(t2)
    requires f == SdkName(v1, t1, "win32") || f == SdkName(v2, t2, "osx") ||
             f == SdkName(v2, t2, "linux") || f == SdkName(v2, t2, "win32")
    requires Contains(f, "osx")
    ensures !Contains(f, "win32") && !Contains(f, "linux")
  {
    if f == SdkName(v1, t1, "win32") {
      SdkNameLacks(v1, t1, "win32", 'x');
      MissingCharNotContained(f, "osx", 'x');
      assert false;
    } else if f == SdkName(v2, t2, "win32") {
      SdkNameLacks(v2, t2, "win32", 'x');
      MissingCharNotContained(f, "osx", 'x');
      assert false;
    } else if f == SdkName(v2, t2, "linux") {
      OsxNotInLinuxName(v2, t2);
      assert false;
    } else {
      SdkNameLacks(v2, t2, "osx", 'w');
      SdkNameLacks(v2, t2, "osx", 'u');
      MissingCharNotContained(f, "win32", 'w');
      MissingCharNotContained(f, "linux", 'u');
    }
  }

  /** A kept build comes from one of the records and its filename contains the OS asked for. */
  lemma OsKept(host: Host, input: Value, os: string, list: seq<RawBuild>, b: Build)
    requires os != "" && b in ParseBuildList(host, input, os, list)
    ensures exists j :: 0 <= j < |list| && b.raw == list[j]
    ensures Contains(b.raw.filename, os)
  {
    ParseBuildListMembers(host, input, os, list, b);
  }

  /** The test suite's OS query: with no version or hash query, every build `osx` keeps from the
      fixture names neither `win32` nor `linux`. */
  lemma OsQueryOnFixture(host: Host, list: seq<RawBuild>, v1: string, t1: string, v2: string, t2: string, b: Build)
    requires IsFixture(list, v1, t1, v2, t2)
    requires b in ParseBuildList(host, Null, "osx", list)
    ensures !Contains(b.raw.filename, "win32") && !Contains(b.raw.filename, "linux")
  {
    OsKept(host, Null, "osx", list, b);
    var j :| 0 <= j < |list| && b.raw == list[j];
    FixtureName(list, v1, t1, v2, t2, j);
    OsxNameOnly(v1, t1, v2, t2, b.raw.filename);
  }

  /** Which fixture records the hash query '79e9' on linux keeps. */
  lemma HashQueryOnFixture(host: Host, list: seq<RawBuild>, v1: string, t1: string, v2: string, t2: string)
    requires IsFixture(list, v1, t1, v2, t2)
    ensures Keep(host, Str("79e9"), "linux", list[0]).None?
    ensures Keep(host, Str("79e9"), "linux", list[1]).None?
    ensures Keep(host, Str("79e9"), "linux", list[2]).Some?
    ensures Keep(host, Str("79e9"), "linux", list[3]).None?
  {
    SdkNameLacks(v1, t1, "win32", 'u');
    SdkNameLacks(v2, t2, "osx", 'u');
    SdkNameLacks(v2, t2, "win32", 'u');
    KeepOtherOs(host, Str("79e9"), "linux", list[0], 'u');
    KeepOtherOs(host, Str("79e9"), "linux", list[1], 'u');
    KeepOtherOs(host, Str("79e9"), "linux", list[3], 'u');
    KeepSdkName(host, Str("79e9"), "linux", list[2], v2, t2);
    FixtureRevisions(list, v1, t1, v2, t2);
  }

  /** The test suite's hash query: '79e9' on linux selects only the linux record of revision
      79e9c73..., whatever the range semantics. */
  lemma ParseBuildListHashExample(host: Host, list: seq<RawBuild>, v1: string, t1: string, v2: string, t2: string)
    requires IsFixture(list, v1, t1, v2, t2)
    ensures |ParseBuildList(host, Str("79e9"), "linux", list)| == 1
    ensures ParseBuildList(host, Str("79e9"), "linux", list)[0].raw.sha1 == "a0c6a6cbf334752cf9e2f23be37ee11e63af0a1b"
  {
    HashQueryOnFixture(host, list, v1, t1, v2, t2);
    ParseBuildListOfFour(host, Str("79e9"), "linux", list);
  }

  /** The version query '2.1' on win32 drops the fixture's osx and linux records. */
  lemma VersionQueryOsOnFixture(host: Host, list: seq<RawBuild>, v1: string, t1: string, v2: string, t2: string)
    requires IsFixture(list, v1, t1, v2, t2)
    ensures Keep(host, Str("2.1"), "win32", list[1]).None?
    ensures Keep(host, Str("2.1"), "win32", list[2]).None?
  {
    SdkNameLacks(v2, t2, "osx", 'w');
    SdkNameLacks(v2, t2, "linux", 'w');
    KeepOtherOs(host, Str("2.1"), "win32", list[1], 'w');
    KeepOtherOs(host, Str("2.1"), "win32", list[2], 'w');
  }

  /** Of the fixture's win32 records, the version query '2.1' keeps the 2.1.0 one only. */
  lemma VersionQueryOnFixture(host: Host, list: seq<RawBuild>, v1: string, t1: string, v2: string, t2: string)
    requires IsFixture(list, v1, t1, v2, t2)
    requires host.satisfies(v1, Str("2.1")) && !host.satisfies(v2, Str("2.1"))
    ensures Keep(host, Str("2.1"), "win32", list[0]).Some?
    ensures Keep(host, Str("2.1"), "win32", list[3]).None?
  {
    KeepSdkName(host, Str("2.1"), "win32", list[0], v1, t1);
    KeepSdkName(host, Str("2.1"), "win32", list[3], v2, t2);
    FixtureRevisions(list, v1, t1, v2, t2);
  }

  /** The test suite's version query: '2.1' on win32 selects only the 2.1.0 record, given that
      its version satisfies the range "2.1" and the 2.2.0 version does not. */
  lemma ParseBuildListVersionExample(host: Host, list: seq<RawBuild>, v1: string, t1: string, v2: string, t2: string)
    requires IsFixture(list, v1, t1, v2, t2)
    requires host.satisfies(v1, Str("2.1")) && !host.satisfies(v2, Str("2.1"))
    ensures |ParseBuildList(host, Str("2.1"), "win32", list)| == 1
    ensures ParseBuildList(host, Str("2.1"), "win32", list)[0].raw.sha1 == "2a60ec1e0b693047e6fa9112fe93944c5432a3c3"
  {
    VersionQueryOsOnFixture(host, list, v1, t1, v2, t2);
    VersionQueryOnFixture(host, list, v1, t1, v2, t2);
    ParseBuildListOfFour(host, Str("2.1"), "win32", list);
  }
}
