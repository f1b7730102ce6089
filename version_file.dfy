/** The `version.txt` file an installed SDK carries: `parseVersionFile`, which reads its
    `key=value` lines into an object, and the validity rule of `examineDir`. */
module VersionFile {
  import opened Wrappers
  import opened Text
  import opened Errors

  /** The object `parseVersionFile` builds: every key maps to a string or to `undefined`. */
  type Record = map<string, Option<string>>

  /** `line.split('=')[0]`: the text before the first '='. */
  function LineKey(line: string): string
  {
    Split(line, '=')[0]
  }

  /** `line.split('=')[1]`: the text between the first and the second '=', or `undefined` when
      the line has no '='. */
  function LineValue(line: string): Option<string>
  {
    var parts := Split(line, '=');
    if |parts| > 1 then Some(parts[1]) else None
  }

  /** What a line's key and value are, read off the line itself. */
  lemma LineParts(line: string)
    ensures '=' !in LineKey(line) && LineKey(line) <= line
    ensures '=' !in line ==> LineKey(line) == line
    ensures LineValue(line).Some? <==> '=' in line
    ensures '=' in line ==> line[|LineKey(line)|] == '='
    ensures LineValue(line).Some? ==>
              var rest := line[|LineKey(line)| + 1..];
              '=' !in LineValue(line).value && LineValue(line).value <= rest &&
              (|LineValue(line).value| == |rest| || rest[|LineValue(line).value|] == '=')
  {
    SplitPiecesFree(line, '=');
    if '=' in line {
      var i := FirstIndex(line, '=');
      var rest := line[i + 1..];
      assert Split(line, '=')[1] == Split(rest, '=')[0];
      if '=' in rest {
        var j := FirstIndex(rest, '=');
        assert Split(rest, '=')[0] == rest[..j];
      }
    }
  }

  /** A `key=value` line whose key and value hold no '=' reads back as that key and value. */
  lemma LineRoundTrip(key: string, value: string)
    requires '=' !in key && '=' !in value
    ensures LineKey(key + "=" + value) == key
    ensures LineValue(key + "=" + value) == Some(value)
  {
    var line := key + "=" + value;
    SplitJoin([key, value], '=');
    assert Join([key, value], '=') == line;
  }

  /** The `reduce` of `parseVersionFile`: empty lines are skipped, every other line sets its key
      to its value, a later line overwriting an earlier one. */
  function Fold(lines: seq<string>, memo: Record): Record
  {
    if lines == [] then memo
    else Fold(lines[1..], if lines[0] == "" then memo else memo[LineKey(lines[0]) := LineValue(lines[0])])
  }

  /** `parseVersionFile(data)`: never fails, whatever the text. */
  function ParseVersionFile(data: string): Record
  {
    Fold(Split(data, '\n'), map[])
  }

  /** `line` is a line that sets `key`. */
  predicate Defines(line: string, key: string)
  {
    line != "" && LineKey(line) == key
  }

  /** A key is in the folded record exactly when it was there before or some line sets it; its
      value comes from the last line that sets it, or is the old one when no line does. */
  lemma {:induction false} FoldLookup(lines: seq<string>, memo: Record, key: string)
    ensures key in Fold(lines, memo) <==> key in memo || exists j :: 0 <= j < |lines| && Defines(lines[j], key)
    ensures (forall j :: 0 <= j < |lines| ==> !Defines(lines[j], key)) && key in memo ==>
              Fold(lines, memo)[key] == memo[key]
    ensures forall j :: 0 <= j < |lines| && Defines(lines[j], key) &&
                        (forall h :: j < h < |lines| ==> !Defines(lines[h], key)) ==>
              Fold(lines, memo)[key] == LineValue(lines[j])
  {
    if lines != [] {
      var next := if lines[0] == "" then memo else memo[LineKey(lines[0]) := LineValue(lines[0])];
      FoldLookup(lines[1..], next, key);
      forall j | 1 <= j < |lines| ensures lines[j] == lines[1..][j - 1] { }
      if exists j :: 0 <= j < |lines[1..]| && Defines(lines[1..][j], key) {
        var j :| 0 <= j < |lines[1..]| && Defines(lines[1..][j], key);
        assert Defines(lines[j + 1], key);
      }
    }
  }

  /** One `key=value` line per entry. */
  function Render(entries: seq<(string, string)>): string
    requires |entries| >= 1
  {
    Join(seq(|entries|, i requires 0 <= i < |entries| => entries[i].0 + "=" + entries[i].1), '\n')
  }

  /** The entries as a record, a later entry overwriting an earlier one. */
  function Entries(entries: seq<(string, string)>, memo: Record): Record
  {
    if entries == [] then memo else Entries(entries[1..], memo[entries[0].0 := Some(entries[0].1)])
  }

  /** Entries that hold no line break and no '=' can be written as a version file and read
      back. */
  predicate Writable(entries: seq<(string, string)>)
  {
    forall i :: 0 <= i < |entries| ==>
      '=' !in entries[i].0 && '=' !in entries[i].1 && '\n' !in entries[i].0 && '\n' !in entries[i].1
  }

  /** Reading back a rendered version file gives the entries, last entry winning. */
  lemma ParseRender(entries: seq<(string, string)>)
    requires |entries| >= 1 && Writable(entries)
    ensures ParseVersionFile(Render(entries)) == Entries(entries, map[])
  {
    var lines := seq(|entries|, i requires 0 <= i < |entries| => entries[i].0 + "=" + entries[i].1);
    SplitJoin(lines, '\n');
    FoldEntries(entries, lines, map[]);
  }

  lemma {:induction false} FoldEntries(entries: seq<(string, string)>, lines: seq<string>, memo: Record)
    requires Writable(entries)
    requires lines == seq(|entries|, i requires 0 <= i < |entries| => entries[i].0 + "=" + entries[i].1)
    ensures Fold(lines, memo) == Entries(entries, memo)
  {
    if entries != [] {
      LineRoundTrip(entries[0].0, entries[0].1);
      assert lines[0] != "" by {
        assert lines[0][|entries[0].0|] == '=';
      }
      FoldEntries(entries[1..], lines[1..], memo[entries[0].0 := Some(entries[0].1)]);
    }
  }

  /** A field the validity rule accepts: present, defined and not empty (`!data.field` fails). */
  predicate HasField(record: Record, name: string)
  {
    name in record && record[name].Some? && record[name].value != ""
  }

  /** The validity rule of `examineDir`: a non-empty `githash`, `version` and `timestamp`. */
  predicate IsSdk(record: Record)
  {
    HasField(record, "githash") && HasField(record, "version") && HasField(record, "timestamp")
  }

  /** `examineDir`, given the outcome of reading the directory's `version.txt`. */
  function ExamineDir(read: Result<string, Error>): (r: Result<Record, Error>)
    ensures read.Failure? ==> r == Failure(read.error)
    ensures read.Success? && !IsSdk(ParseVersionFile(read.value)) ==> r == Failure(InvalidSdk)
    ensures read.Success? && IsSdk(ParseVersionFile(read.value)) ==> r == Success(ParseVersionFile(read.value))
    ensures r.Success? ==> read.Success? && r.value == ParseVersionFile(read.value) && IsSdk(r.value)
  {
    match read
    case Failure(e) => Failure(e)
    case Success(data) =>
      var record := ParseVersionFile(data);
      if !IsSdk(record) then Failure(InvalidSdk) else Success(record)
  }

  /** `record[name]` is the string `value`. */
  predicate Holds(record: Record, name: string, value: string)
  {
    name in record && record[name] == Some(value)
  }

  /** A version file written with a non-empty `githash`, `version` and `timestamp` (in any
      order, among any other keys) describes a valid SDK with those values. */
  lemma ExamineRenderedDir(entries: seq<(string, string)>, githash: string, version: string, timestamp: string)
    requires |entries| >= 1 && Writable(entries)
    requires Holds(Entries(entries, map[]), "githash", githash) && githash != ""
    requires Holds(Entries(entries, map[]), "version", version) && version != ""
    requires Holds(Entries(entries, map[]), "timestamp", timestamp) && timestamp != ""
    ensures ExamineDir(Success(Render(entries))).Success?
    ensures Holds(ExamineDir(Success(Render(entries))).value, "githash", githash)
    ensures Holds(ExamineDir(Success(Render(entries))).value, "version", version)
    ensures Holds(ExamineDir(Success(Render(entries))).value, "timestamp", timestamp)
  {
    ParseRender(entries);
  }

  /** The entries of the test suite's version file. */
  predicate IsExampleFile(entries: seq<(string, string)>)
  {
    entries == [("version", "2.1.0"), ("module_apiversion", "2"),
                ("timestamp", "05/02/12 14:18"), ("githash", "cde5b27")]
  }

  /** The test suite's entries hold no '=' and no line break. */
  lemma ExampleWritable(entries: seq<(string, string)>)
    requires IsExampleFile(entries)
    ensures Writable(entries)
  {
  }

  /** The test suite's entries, read as a record. */
  lemma ExampleEntries(entries: seq<(string, string)>)
    requires IsExampleFile(entries)
    ensures Entries(entries, map[]) ==
            map["version" := Some("2.1.0"), "module_apiversion" := Some("2"),
                "timestamp" := Some("05/02/12 14:18"), "githash" := Some("cde5b27")]
  {
    var m1 := map[]["version" := Some("2.1.0")];
    var m2 := m1["module_apiversion" := Some("2")];
    var m3 := m2["timestamp" := Some("05/02/12 14:18")];
    var m4 := m3["githash" := Some("cde5b27")];
    assert entries[1..][1..][1..][1..] == [];
    assert Entries(entries, map[]) == Entries(entries[1..], m1);
    assert Entries(entries[1..], m1) == Entries(entries[1..][1..], m2);
    assert Entries(entries[1..][1..], m2) == Entries(entries[1..][1..][1..], m3);
    assert Entries(entries[1..][1..][1..], m3) == m4;
  }

  /** The test suite's version file reads back its version, timestamp and short hash. */
  lemma ParseVersionFileExample(entries: seq<(string, string)>)
    requires IsExampleFile(entries)
    ensures Holds(ParseVersionFile(Render(entries)), "version", "2.1.0")
    ensures Holds(ParseVersionFile(Render(entries)), "timestamp", "05/02/12 14:18")
    ensures Holds(ParseVersionFile(Render(entries)), "githash", "cde5b27")
  {
    ExampleWritable(entries);
    ParseRender(entries);
    ExampleEntries(entries);
  }
}
