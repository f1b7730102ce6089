/** The public commands `install`, `remove`, `list`, `builder` and `titanium`: each looks builds
    up through `getAllBuilds` or `findInstalled` and acts on what it finds. The downloads, the
    archive extraction, the directory removal and the child processes are left to the caller:
    a command returns what it would download, remove or spawn. */
module Commands {
  import opened Wrappers
  import opened Js
  import opened Foreign
  import opened Errors
  import opened Sorting
  import opened Catalog
  import opened Installed
  import opened Merge

  /** What `getAllBuilds` hands its callback, up to the order of the builds. */
  function Candidates(host: Host, input: Value, os: string, branches: Result<seq<string>, Error>,
                      index: string -> Result<seq<RawBuild>, Error>): Result<seq<Build>, Error>
  {
    match branches
    case Failure(e) => Failure(e)
    case Success(names) =>
      match FetchAll(names, index)
      case Failure(e) => Failure(e)
      case Success(raws) => Success(ParseBuildList(host, input, os, raws))
  }

  /** What `findInstalled` hands its callback, up to the order of the builds. */
  function Matches(host: Host, dir: string, input: Value, listing: Result<seq<string>, Error>,
                   read: string -> Result<string, Error>): Result<seq<InstalledBuild>, Error>
  {
    match listing
    case Failure(e) => Failure(e)
    case Success(names) => Success(InstalledFrom(host, dir, input, read, names))
  }

  /** `getAllBuilds` as a single lookup: its error, or the candidates sorted by date. */
  method SortedCandidates(host: Host, input: Value, os: string, branches: Result<seq<string>, Error>,
                          index: string -> Result<seq<RawBuild>, Error>)
    returns (r: Result<seq<Build>, Error>)
    ensures Candidates(host, input, os, branches, index).Failure? ==>
              r == Failure(Candidates(host, input, os, branches, index).error)
    ensures Candidates(host, input, os, branches, index).Success? ==>
              r.Success? && SortedBy(r.value, BuildTime(host)) &&
              multiset(r.value) == multiset(Candidates(host, input, os, branches, index).value)
  {
    r := GetAllBuilds(host, input, os, branches, index);
  }

  /** `findInstalled` as a single lookup: its error, or the matches sorted by date. */
  method SortedMatches(host: Host, dir: string, input: Value, listing: Result<seq<string>, Error>,
                       read: string -> Result<string, Error>)
    returns (r: Result<seq<InstalledBuild>, Error>)
    ensures Matches(host, dir, input, listing, read).Failure? ==>
              r == Failure(Matches(host, dir, input, listing, read).error)
    ensures Matches(host, dir, input, listing, read).Success? ==>
              r.Success? && SortedBy(r.value, InstalledTime(host)) &&
              multiset(r.value) == multiset(Matches(host, dir, input, listing, read).value)
  {
    r := FindInstalled(host, dir, input, listing, read);
  }

  /** The download `install` starts: the archive's url, where it is written, the file it unlinks
      once the archive is extracted, and the size the progress is measured against. */
  datatype Download = Download(url: string, archive: string, output: string, cleanup: string, size: int)

  function DownloadOf(host: Host, output: string, b: Build): Download
  {
    Download(b.zip, host.join(output, b.raw.filename), output, output + "/" + b.raw.filename, b.raw.size)
  }

  /** `install`: the latest matching build is downloaded into `output`. A lookup error is passed
      on; no match is "no matching SDK versions". */
  method Install(host: Host, output: string, input: Value, os: string, branches: Result<seq<string>, Error>,
                 index: string -> Result<seq<RawBuild>, Error>)
    returns (r: Result<Download, Error>)
    ensures Candidates(host, input, os, branches, index).Failure? ==>
              r == Failure(Candidates(host, input, os, branches, index).error)
    ensures Candidates(host, input, os, branches, index) == Success([]) ==>
              r == Failure(NoMatch("no matching SDK versions"))
    ensures Candidates(host, input, os, branches, index).Success? && Candidates(host, input, os, branches, index).value != [] ==>
              r.Success? &&
              exists b :: IsLatest(Candidates(host, input, os, branches, index).value, b, BuildTime(host)) &&
                          r.value == DownloadOf(host, output, b)
  {
    var builds := SortedCandidates(host, input, os, branches, index);
    if builds.Failure? {
      return Failure(builds.error);
    }
    if |builds.value| == 0 {
      return Failure(NoMatch("no matching SDK versions"));
    }
    var s := builds.value;
    var build := s[|s| - 1];
    PoppedIsLatest(s, Candidates(host, input, os, branches, index).value, BuildTime(host));
    r := Success(DownloadOf(host, output, build));
  }

  /** `builds.map(function (item) { return item.dir; })`. */
  function Dirs(builds: seq<InstalledBuild>): (r: seq<string>)
    ensures |r| == |builds|
    ensures forall i :: 0 <= i < |builds| ==> r[i] == builds[i].dir
  {
    seq(|builds|, i requires 0 <= i < |builds| => builds[i].dir)
  }

  /** `remove`: the directories of every matching installed SDK are removed. A lookup error is
      passed on; no match is "no matched builds". */
  method Remove(host: Host, dir: string, input: Value, listing: Result<seq<string>, Error>,
                read: string -> Result<string, Error>)
    returns (r: Result<seq<string>, Error>)
    ensures Matches(host, dir, input, listing, read).Failure? ==>
              r == Failure(Matches(host, dir, input, listing, read).error)
    ensures Matches(host, dir, input, listing, read) == Success([]) ==>
              r == Failure(NoMatch("no matched builds"))
    ensures Matches(host, dir, input, listing, read).Success? && Matches(host, dir, input, listing, read).value != [] ==>
              r.Success? && |r.value| == |Matches(host, dir, input, listing, read).value| &&
              (forall d :: d in r.value <==> exists b :: b in Matches(host, dir, input, listing, read).value && b.dir == d) &&
              exists s :: SortedBy(s, InstalledTime(host)) &&
                          multiset(s) == multiset(Matches(host, dir, input, listing, read).value) &&
                          r.value == Dirs(s)
  {
    var builds := SortedMatches(host, dir, input, listing, read);
    if builds.Failure? {
      return Failure(builds.error);
    }
    if |builds.value| == 0 {
      return Failure(NoMatch("no matched builds"));
    }
    var s := builds.value;
    var found := Matches(host, dir, input, listing, read).value;
    assert |s| == |multiset(s)| == |multiset(found)| == |found|;
    r := Success(Dirs(s));
    forall d ensures d in r.value <==> exists b :: b in found && b.dir == d {
      if d in r.value {
        var i :| 0 <= i < |s| && r.value[i] == d;
        assert s[i] in multiset(found);
      }
      if exists b :: b in found && b.dir == d {
        var b :| b in found && b.dir == d;
        assert b in multiset(s);
        var i :| 0 <= i < |s| && s[i] == b;
        assert r.value[i] == d;
      }
    }
  }

  /** The latest matching installed SDK, as `builder` and `titanium` pick it. */
  method LatestInstalled(host: Host, dir: string, input: Value, listing: Result<seq<string>, Error>,
                         read: string -> Result<string, Error>)
    returns (r: Result<InstalledBuild, Error>)
    ensures Matches(host, dir, input, listing, read).Failure? ==>
              r == Failure(Matches(host, dir, input, listing, read).error)
    ensures Matches(host, dir, input, listing, read) == Success([]) ==>
              r == Failure(NoMatch("no matched builds"))
    ensures Matches(host, dir, input, listing, read).Success? && Matches(host, dir, input, listing, read).value != [] ==>
              r.Success? && IsLatest(Matches(host, dir, input, listing, read).value, r.value, InstalledTime(host))
  {
    var builds := SortedMatches(host, dir, input, listing, read);
    if builds.Failure? {
      return Failure(builds.error);
    }
    if |builds.value| == 0 {
      return Failure(NoMatch("no matched builds"));
    }
    var s := builds.value;
    PoppedIsLatest(s, Matches(host, dir, input, listing, read).value, InstalledTime(host));
    r := Success(s[|s| - 1]);
  }

  /** A child process to spawn: the program and its arguments. */
  datatype Command = Command(program: string, args: seq<string>)

  /** `options.python || 'python'`: the interpreter the options ask for, `python` by default. */
  function Program(python: string): (r: string)
    ensures r != ""
    ensures python != "" ==> r == python
  {
    if python != "" then python else "python"
  }

  /** The interpreter `builder` and `titanium` spawn as written: `python` whatever the options say. */
  function ProgramAsWritten(python: string): string
  {
    "python"
  }

  /** As written, an interpreter named in the options is never the one spawned. */
  lemma PythonOptionIgnoredAsWritten(python: string)
    requires python != "" && python != "python"
    ensures ProgramAsWritten(python) != Program(python)
    ensures Program(python) == python
  {
  }

  /** The error reported when the child exits: none for code 0, otherwise "process exited with
      code: <code>". */
  function ExitError(code: int): (r: Option<Error>)
    ensures r.None? <==> code == 0
    ensures r.Some? ==> r.value.Exited? && r.value.code == code
  {
    if code == 0 then None else Some(Exited(code))
  }

  /** The `builder.py` command for an SDK directory and a target OS. */
  function BuilderCommand(host: Host, python: string, b: InstalledBuild, os: string, args: seq<string>): Command
  {
    Command(Program(python), [host.join(host.join(b.dir, os), "builder.py")] + args)
  }

  /** The `titanium.py` command for an SDK directory. */
  function TitaniumCommand(host: Host, python: string, b: InstalledBuild, args: seq<string>): Command
  {
    Command(Program(python), [host.join(b.dir, "titanium.py")] + args)
  }

  /** The test suite's `builder` call: no interpreter named, target `iphone`, arguments `foo`
      and `bar`, spawns `python` on the SDK's `iphone/builder.py` followed by the arguments. */
  lemma BuilderCommandExample(host: Host, b: InstalledBuild)
    ensures BuilderCommand(host, "", b, "iphone", ["foo", "bar"]) ==
            Command("python", [host.join(host.join(b.dir, "iphone"), "builder.py"), "foo", "bar"])
  {
  }

  /** `builder`: runs `builder.py` for `os` from the latest matching installed SDK, under the
      interpreter the options name; `exit` is the code the child exits with. */
  method Builder(host: Host, dir: string, input: Value, os: string, args: seq<string>, python: string,
                 listing: Result<seq<string>, Error>, read: string -> Result<string, Error>,
                 exit: Command -> int)
    returns (spawned: Option<Command>, err: Option<Error>)
    ensures Matches(host, dir, input, listing, read).Failure? ==>
              spawned == None && err == Some(Matches(host, dir, input, listing, read).error)
    ensures Matches(host, dir, input, listing, read) == Success([]) ==>
              spawned == None && err == Some(NoMatch("no matched builds"))
    ensures Matches(host, dir, input, listing, read).Success? && Matches(host, dir, input, listing, read).value != [] ==>
              && spawned.Some? && spawned.value.program == Program(python)
              && (exists b :: IsLatest(Matches(host, dir, input, listing, read).value, b, InstalledTime(host)) &&
                              spawned.value == BuilderCommand(host, python, b, os, args))
              && err == ExitError(exit(spawned.value))
  {
    var build := LatestInstalled(host, dir, input, listing, read);
    if build.Failure? {
      return None, Some(build.error);
    }
    var command := BuilderCommand(host, python, build.value, os, args);
    spawned := Some(command);
    err := ExitError(exit(command));
  }

  /** `titanium`: runs `titanium.py` from the latest matching installed SDK, under the
      interpreter the options name; `exit` is the code the child exits with. */
  method Titanium(host: Host, dir: string, input: Value, args: seq<string>, python: string,
                  listing: Result<seq<string>, Error>, read: string -> Result<string, Error>,
                  exit: Command -> int)
    returns (spawned: Option<Command>, err: Option<Error>)
    ensures Matches(host, dir, input, listing, read).Failure? ==>
              spawned == None && err == Some(Matches(host, dir, input, listing, read).error)
    ensures Matches(host, dir, input, listing, read) == Success([]) ==>
              spawned == None && err == Some(NoMatch("no matched builds"))
    ensures Matches(host, dir, input, listing, read).Success? && Matches(host, dir, input, listing, read).value != [] ==>
              && spawned.Some? && spawned.value.program == Program(python)
              && (exists b :: IsLatest(Matches(host, dir, input, listing, read).value, b, InstalledTime(host)) &&
                              spawned.value == TitaniumCommand(host, python, b, args))
              && err == ExitError(exit(spawned.value))
  {
    var build := LatestInstalled(host, dir, input, listing, read);
    if build.Failure? {
      return None, Some(build.error);
    }
    var command := TitaniumCommand(host, python, build.value, args);
    spawned := Some(command);
    err := ExitError(exit(command));
  }

  /** The options `list` accepts: `os` a string, and `dir` a string whenever `installed` is set. */
  predicate Accepted(os: Value, installed: Value, dir: Value)
  {
    os.Str? && (!Truthy(installed) || dir.Str?)
  }

  /** The installed half of `list`: no builds unless `options.installed` is set, and then the
      matches in `options.dir` (which `list` has checked is a string). */
  function InstalledPart(host: Host, installed: Value, dir: Value, input: Value, listing: Result<seq<string>, Error>,
                         read: string -> Result<string, Error>): Result<seq<InstalledBuild>, Error>
  {
    if !Truthy(installed) then Success([])
    else if dir.Str? then Matches(host, dir.s, input, listing, read)
    else Failure(TypeError("options.dir is required for options.installed"))
  }

  /** The available half of `list`: no builds unless `options.available` is set. */
  function AvailablePart(host: Host, available: Value, os: string, input: Value, branches: Result<seq<string>, Error>,
                         index: string -> Result<seq<RawBuild>, Error>): Result<seq<Build>, Error>
  {
    if Truthy(available) then Candidates(host, input, os, branches, index) else Success([])
  }

  /** A lookup delivers `half`: its error, or its builds ordered by `key`. */
  predicate Delivers<T(==)>(r: Result<seq<T>, Error>, half: Result<seq<T>, Error>, key: T -> int)
  {
    && (half.Failure? ==> r == Failure(half.error))
    && (half.Success? ==> r.Success? && SortedBy(r.value, key) && multiset(r.value) == multiset(half.value))
  }

  /** The `installed` task of `list`'s `async.parallel`. */
  method InstalledTask(host: Host, installed: Value, dir: Value, input: Value, listing: Result<seq<string>, Error>,
                       read: string -> Result<string, Error>)
    returns (r: Result<seq<InstalledBuild>, Error>)
    ensures Delivers(r, InstalledPart(host, installed, dir, input, listing, read), InstalledTime(host))
  {
    if !Truthy(installed) {
      r := Success([]);
    } else if dir.Str? {
      r := SortedMatches(host, dir.s, input, listing, read);
    } else {
      r := Failure(TypeError("options.dir is required for options.installed"));
    }
  }

  /** The `available` task of `list`'s `async.parallel`. */
  method AvailableTask(host: Host, available: Value, os: string, input: Value, branches: Result<seq<string>, Error>,
                       index: string -> Result<seq<RawBuild>, Error>)
    returns (r: Result<seq<Build>, Error>)
    ensures Delivers(r, AvailablePart(host, available, os, input, branches, index), BuildTime(host))
  {
    if Truthy(available) {
      r := SortedCandidates(host, input, os, branches, index);
    } else {
      r := Success([]);
    }
  }

  /** `r` is the merge of some date-ordered arrangement of the two halves of `list`, sorted. */
  predicate MergeOf(host: Host, r: seq<Entry>, avail: seq<Build>, inst: seq<InstalledBuild>,
                    availableHalf: seq<Build>, installedHalf: seq<InstalledBuild>)
  {
    && SortedBy(avail, BuildTime(host)) && multiset(avail) == multiset(availableHalf)
    && SortedBy(inst, InstalledTime(host)) && multiset(inst) == multiset(installedHalf)
    && SortedBy(r, EntryTime(host)) && multiset(r) == multiset(Merged(avail, inst))
  }

  /** How `list` reports once its options are accepted, given what its two tasks yield: it
      fails exactly when a task fails, with the error of a failed task, and otherwise returns the
      merge of the two. */
  ghost predicate ListOutcome(host: Host, r: Result<seq<Entry>, Error>,
                        installedHalf: Result<seq<InstalledBuild>, Error>, availableHalf: Result<seq<Build>, Error>)
  {
    && (r.Failure? <==> installedHalf.Failure? || availableHalf.Failure?)
    && (r.Failure? ==>
          (installedHalf.Failure? && r.error == installedHalf.error) ||
          (availableHalf.Failure? && r.error == availableHalf.error))
    && (r.Success? ==>
          exists avail, inst :: MergeOf(host, r.value, avail, inst, availableHalf.value, installedHalf.value))
  }

  /** `list`: checks its options, collects the installed and the available builds that are
      asked for, and merges them. Either task's error is reported. */
  method List(host: Host, os: Value, installed: Value, available: Value, dir: Value, input: Value,
              listing: Result<seq<string>, Error>, read: string -> Result<string, Error>,
              branches: Result<seq<string>, Error>, index: string -> Result<seq<RawBuild>, Error>)
    returns (r: Result<seq<Entry>, Error>)
    ensures !os.Str? ==> r == Failure(TypeError("options.os is required"))
    ensures os.Str? && Truthy(installed) && !dir.Str? ==>
              r == Failure(TypeError("options.dir is required for options.installed"))
    ensures Accepted(os, installed, dir) ==>
              ListOutcome(host, r, InstalledPart(host, installed, dir, input, listing, read),
                          AvailablePart(host, available, os.s, input, branches, index))
  {
    if !os.Str? {
      return Failure(TypeError("options.os is required"));
    }
    if Truthy(installed) && !dir.Str? {
      return Failure(TypeError("options.dir is required for options.installed"));
    }
    assert Accepted(os, installed, dir);
    ghost var installedHalf := InstalledPart(host, installed, dir, input, listing, read);
    ghost var availableHalf := AvailablePart(host, available, os.s, input, branches, index);
    var inst := InstalledTask(host, installed, dir, input, listing, read);
    var avail := AvailableTask(host, available, os.s, input, branches, index);
    r := Collect(host, inst, avail, installedHalf, availableHalf);
  }

  /** The final callback of `list`'s `async.parallel`: an error if a task failed, otherwise the
      merge of the two tasks' builds. */
  method Collect(host: Host, inst: Result<seq<InstalledBuild>, Error>, avail: Result<seq<Build>, Error>,
                 ghost installedHalf: Result<seq<InstalledBuild>, Error>, ghost availableHalf: Result<seq<Build>, Error>)
    returns (r: Result<seq<Entry>, Error>)
    requires Delivers(inst, installedHalf, InstalledTime(host))
    requires Delivers(avail, availableHalf, BuildTime(host))
    ensures ListOutcome(host, r, installedHalf, availableHalf)
  {
    if inst.Failure? {
      return Failure(inst.error);
    }
    if avail.Failure? {
      return Failure(avail.error);
    }
    var merged := MergeBuilds(host, avail.value, inst.value);
    r := Success(merged);
    assert MergeOf(host, merged, avail.value, inst.value, availableHalf.value, installedHalf.value);
  }
}
