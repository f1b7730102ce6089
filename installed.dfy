/** The SDKs already on disk: `findInstalled`, which examines every directory under the SDK
    root, keeps the valid ones that answer the query and orders them by date. */
module Installed {
  import opened Wrappers
  import opened Js
  import opened Timestamp
  import opened Foreign
  import opened Matcher
  import opened VersionFile
  import opened Errors
  import opened Sorting

  /** The record `findInstalled` builds for an installed SDK. */
  datatype InstalledBuild = InstalledBuild(githash: string, version: string, date: DateFields, dir: string)

  /** `path.join(dir, name)`: where the SDK named `name` lives. */
  function SdkDir(host: Host, dir: string, name: string): string
  {
    host.join(dir, name)
  }

  /** The version file `examineDir` reads for the SDK named `name`. */
  function VersionPath(host: Host, dir: string, name: string): string
  {
    host.join(SdkDir(host, dir, name), "version.txt")
  }

  /** The accumulation step of `findInstalled` for one directory entry: an entry whose version
      file cannot be read or is not valid is skipped, and a valid one is kept when it answers
      the query, matched against its short hash. */
  function Examine(host: Host, dir: string, input: Value, read: string -> Result<string, Error>, name: string)
    : (r: Option<InstalledBuild>)
    ensures r.Some? <==>
      && ExamineDir(read(VersionPath(host, dir, name))).Success?
      && var record := ExamineDir(read(VersionPath(host, dir, name))).value;
         Selects(host, input, record["version"].value, record["githash"].value)
    ensures r.Some? ==>
      var record := ExamineDir(read(VersionPath(host, dir, name))).value;
      && Some(r.value.githash) == record["githash"] && r.value.githash != ""
      && Some(r.value.version) == record["version"] && r.value.version != ""
      && r.value.date == host.dateOfText(record["timestamp"].value)
      && r.value.dir == SdkDir(host, dir, name)
  {
    match ExamineDir(read(VersionPath(host, dir, name)))
    case Failure(_) => None
    case Success(record) =>
      var githash := record["githash"].value;
      var version := record["version"].value;
      if Selects(host, input, version, githash) then
        Some(InstalledBuild(githash, version, host.dateOfText(record["timestamp"].value), SdkDir(host, dir, name)))
      else None
  }

  /** The builds `findInstalled` collects, in directory order, before sorting. */
  function InstalledFrom(host: Host, dir: string, input: Value, read: string -> Result<string, Error>,
                         names: seq<string>): (r: seq<InstalledBuild>)
    ensures |r| <= |names|
  {
    if names == [] then []
    else
      var rest := InstalledFrom(host, dir, input, read, names[1..]);
      match Examine(host, dir, input, read, names[0])
      case Some(b) => [b] + rest
      case None => rest
  }

  /** The collected builds are exactly the kept directory entries. */
  lemma {:induction false} InstalledMembers(host: Host, dir: string, input: Value, read: string -> Result<string, Error>,
                                            names: seq<string>, b: InstalledBuild)
    ensures b in InstalledFrom(host, dir, input, read, names) <==>
            exists j :: 0 <= j < |names| && Examine(host, dir, input, read, names[j]) == Some(b)
  {
    if names != [] {
      InstalledMembers(host, dir, input, read, names[1..], b);
      if exists j :: 0 <= j < |names| && Examine(host, dir, input, read, names[j]) == Some(b) {
        var j :| 0 <= j < |names| && Examine(host, dir, input, read, names[j]) == Some(b);
        if j > 0 {
          assert names[1..][j - 1] == names[j];
        }
      }
      if b in InstalledFrom(host, dir, input, read, names[1..]) {
        var j :| 0 <= j < |names[1..]| && Examine(host, dir, input, read, names[1..][j]) == Some(b);
        assert names[j + 1] == names[1..][j];
      }
    }
  }

  /** Every collected build comes from a directory entry with a valid version file, answers the
      query, and carries that file's short hash and version, the date its timestamp denotes and
      the entry's path. */
  lemma InstalledValid(host: Host, dir: string, input: Value, read: string -> Result<string, Error>,
                       names: seq<string>, b: InstalledBuild)
    requires b in InstalledFrom(host, dir, input, read, names)
    ensures exists j :: 0 <= j < |names| && read(VersionPath(host, dir, names[j])).Success? &&
              var record := ParseVersionFile(read(VersionPath(host, dir, names[j])).value);
              && IsSdk(record)
              && Some(b.githash) == record["githash"] && Some(b.version) == record["version"]
              && b.date == host.dateOfText(record["timestamp"].value)
              && b.dir == SdkDir(host, dir, names[j])
    ensures Selects(host, input, b.version, b.githash)
  {
    InstalledMembers(host, dir, input, read, names, b);
  }

  /** Every entry whose version file is valid and answers the query is collected: a bad entry
      elsewhere never hides it. */
  lemma InstalledComplete(host: Host, dir: string, input: Value, read: string -> Result<string, Error>,
                          names: seq<string>, j: int)
    requires 0 <= j < |names| && read(VersionPath(host, dir, names[j])).Success?
    requires IsSdk(ParseVersionFile(read(VersionPath(host, dir, names[j])).value))
    requires var record := ParseVersionFile(read(VersionPath(host, dir, names[j])).value);
             Selects(host, input, record["version"].value, record["githash"].value)
    ensures Examine(host, dir, input, read, names[j]).Some?
    ensures Examine(host, dir, input, read, names[j]).value in InstalledFrom(host, dir, input, read, names)
  {
    InstalledMembers(host, dir, input, read, names, Examine(host, dir, input, read, names[j]).value);
  }

  /** A kept entry, as a sequence of zero or one builds. */
  function Found(o: Option<InstalledBuild>): seq<InstalledBuild>
  {
    if o.Some? then [o.value] else []
  }

  /** The collection's first step: the first entry's outcome in front of the rest's. */
  lemma InstalledFromCons(host: Host, dir: string, input: Value, read: string -> Result<string, Error>,
                          names: seq<string>)
    requires names != []
    ensures InstalledFrom(host, dir, input, read, names) ==
            Found(Examine(host, dir, input, read, names[0])) + InstalledFrom(host, dir, input, read, names[1..])
  {
    if Examine(host, dir, input, read, names[0]).None? {
      assert Found(Examine(host, dir, input, read, names[0])) == [];
    }
  }

  /** The ordering key of `findInstalled`'s sort: `date.getTime()`. */
  function InstalledTime(host: Host): InstalledBuild -> int
  {
    (b: InstalledBuild) => host.getTime(b.date)
  }

  /** `findInstalled`, given the outcome of listing the SDK root and a reader for files: a
      listing failure is reported, and otherwise the kept builds come back sorted by date. */
  method FindInstalled(host: Host, dir: string, input: Value, listing: Result<seq<string>, Error>,
                       read: string -> Result<string, Error>)
    returns (r: Result<seq<InstalledBuild>, Error>)
    ensures listing.Failure? ==> r == Failure(listing.error)
    ensures listing.Success? ==>
              r.Success? && SortedBy(r.value, InstalledTime(host)) &&
              multiset(r.value) == multiset(InstalledFrom(host, dir, input, read, listing.value))
  {
    if listing.Failure? {
      return Failure(listing.error);
    }
    var names := listing.value;
    var memo: seq<InstalledBuild> := [];
    var i := 0;
    assert names[i..] == names;
    while i < |names|
      invariant 0 <= i <= |names|
      invariant memo + InstalledFrom(host, dir, input, read, names[i..]) == InstalledFrom(host, dir, input, read, names)
    {
      assert names[i..][1..] == names[i + 1..];
      var examined := Examine(host, dir, input, read, names[i]);
      InstalledFromCons(host, dir, input, read, names[i..]);
      assert memo + (Found(examined) + InstalledFrom(host, dir, input, read, names[i + 1..]))
          == (memo + Found(examined)) + InstalledFrom(host, dir, input, read, names[i + 1..]);
      memo := memo + Found(examined);
      i := i + 1;
    }
    assert memo + [] == memo;
    var a := new InstalledBuild[|memo|](k requires 0 <= k < |memo| => memo[k]);
    assert a[..] == memo;
    SortByKey(a, InstalledTime(host));
    r := Success(a[..]);
  }
}
