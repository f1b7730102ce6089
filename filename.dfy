/** What `parseBuildList` reads out of a remote build's filename: the leftmost match of
    `[0-9]*\.[0-9]*\.[0-9]*` as the version and the leftmost match of `[0-9]{14}` as the
    timestamp token. */
module Filename {
  import opened Wrappers
  import opened Text
  import opened Timestamp

  /** The length of the run of digits that starts at `i`. */
  function DigitRun(s: string, i: nat): (n: nat)
    requires i <= |s|
    ensures i + n <= |s|
    ensures forall k :: i <= k < i + n ==> IsDigit(s[k])
    ensures i + n == |s| || !IsDigit(s[i + n])
    decreases |s| - i
  {
    if i < |s| && IsDigit(s[i]) then 1 + DigitRun(s, i + 1) else 0
  }

  /** The number of '.' characters in `v`. */
  function Dots(v: string): nat
  {
    if v == [] then 0 else Dots(v[..|v| - 1]) + (if v[|v| - 1] == '.' then 1 else 0)
  }

  predicate DigitsOrDots(v: string)
  {
    forall k :: 0 <= k < |v| ==> IsDigit(v[k]) || v[k] == '.'
  }

  /** `v` as a whole matches `[0-9]*\.[0-9]*\.[0-9]*`: digits and exactly two dots. */
  predicate Shaped(v: string)
  {
    DigitsOrDots(v) && Dots(v) == 2
  }

  /** Where the greedy match of the version pattern that starts at `i` ends, if one does. */
  function VersionEndAt(s: string, i: nat): (r: Option<nat>)
    requires i <= |s|
    ensures r.Some? ==> i <= r.value <= |s|
  {
    var a := i + DigitRun(s, i);
    if a < |s| && s[a] == '.' then
      var b := a + 1 + DigitRun(s, a + 1);
      if b < |s| && s[b] == '.' then Some(b + 1 + DigitRun(s, b + 1)) else None
    else None
  }

  /** The leftmost start at or after `i` where the version pattern matches, with its end. */
  function MatchVersionFrom(s: string, i: nat): (r: Option<(nat, nat)>)
    requires i <= |s|
    ensures r.Some? ==> i <= r.value.0 <= r.value.1 <= |s| && VersionEndAt(s, r.value.0) == Some(r.value.1)
    ensures r.Some? ==> forall k :: i <= k < r.value.0 ==> VersionEndAt(s, k).None?
    ensures r.None? ==> forall k :: i <= k <= |s| ==> VersionEndAt(s, k).None?
    decreases |s| - i
  {
    match VersionEndAt(s, i)
    case Some(e) => Some((i, e))
    case None => if i == |s| then None else MatchVersionFrom(s, i + 1)
  }

  function MatchVersion(s: string): (r: Option<(nat, nat)>)
    ensures r.Some? ==> r.value.0 <= r.value.1 <= |s|
  {
    MatchVersionFrom(s, 0)
  }

  /** the first match of `[0-9]*\.[0-9]*\.[0-9]*` in the filename, or `None` when there is no match. */
  function ExtractVersion(filename: string): Option<string>
  {
    match MatchVersion(filename)
    case Some((i, e)) => Some(filename[i..e])
    case None => None
  }

  lemma {:induction false} DotsAppend(a: string, b: string)
    ensures Dots(a + b) == Dots(a) + Dots(b)
    decreases |b|
  {
    if b == [] {
      assert a + b == a;
    } else {
      assert (a + b)[..|a + b| - 1] == a + b[..|b| - 1];
      assert (a + b)[|a + b| - 1] == b[|b| - 1];
      DotsAppend(a, b[..|b| - 1]);
    }
  }

  lemma {:induction false} DotsOfDigits(v: string)
    requires AllDigits(v)
    ensures Dots(v) == 0
  {
    if v != [] {
      DotsOfDigits(v[..|v| - 1]);
    }
  }

  lemma {:induction false} NoDotsAllDigits(v: string)
    requires DigitsOrDots(v) && Dots(v) == 0
    ensures AllDigits(v)
  {
    if v != [] {
      NoDotsAllDigits(v[..|v| - 1]);
    }
  }

  lemma {:induction false} DigitRunCovers(s: string, i: nat, m: nat)
    requires i <= m <= |s|
    requires forall k :: i <= k < m ==> IsDigit(s[k])
    ensures i + DigitRun(s, i) >= m
    decreases m - i
  {
    if i < m {
      DigitRunCovers(s, i + 1, m);
    }
  }

  /** The dots of a string split around one character. */
  lemma DotsAround(x: string, c: char, y: string)
    ensures Dots(x + [c] + y) == Dots(x) + (if c == '.' then 1 else 0) + Dots(y)
  {
    assert Dots([c]) == (if c == '.' then 1 else 0) by { assert [c][..0] == []; }
    DotsAppend(x, [c]);
    DotsAppend(x + [c], y);
  }

  /** In a stretch of digits and dots that holds at least one dot, the digit run from its start
      ends at that stretch's first dot. */
  lemma FirstDot(s: string, i: nat, m: nat)
    requires i <= m <= |s| && DigitsOrDots(s[i..m]) && Dots(s[i..m]) > 0
    ensures i + DigitRun(s, i) < m && s[i + DigitRun(s, i)] == '.'
    ensures Dots(s[i + DigitRun(s, i) + 1..m]) == Dots(s[i..m]) - 1
    ensures DigitsOrDots(s[i + DigitRun(s, i) + 1..m])
  {
    var a := i + DigitRun(s, i);
    if a >= m {
      assert AllDigits(s[i..m]);
      DotsOfDigits(s[i..m]);
      assert false;
    }
    var pre, post := s[i..a], s[a + 1..m];
    SliceAround(s, i, a, m);
    assert AllDigits(pre);
    DotsOfDigits(pre);
    DotsAround(pre, s[a], post);
    forall k | 0 <= k < |post| ensures IsDigit(post[k]) || post[k] == '.' {
      assert post[k] == s[i..m][a + 1 - i + k];
    }
  }

  /** A digit run is all digits. */
  lemma RunDigits(s: string, i: nat)
    requires i <= |s|
    ensures AllDigits(s[i..i + DigitRun(s, i)])
  {
    var run := s[i..i + DigitRun(s, i)];
    forall k | 0 <= k < |run| ensures IsDigit(run[k]) {
      assert run[k] == s[i + k];
    }
  }

  /** A slice split around one of its characters. */
  lemma SliceAround(s: string, i: nat, a: nat, e: nat)
    requires i <= a < e <= |s|
    ensures s[i..e] == s[i..a] + [s[a]] + s[a + 1..e]
  {
  }

  /** Joining two stretches of digits and dots with a digit or a dot gives one. */
  lemma DigitsOrDotsAround(x: string, c: char, y: string)
    requires DigitsOrDots(x) && DigitsOrDots(y) && (IsDigit(c) || c == '.')
    ensures DigitsOrDots(x + [c] + y)
  {
    var v := x + [c] + y;
    forall k | 0 <= k < |v| ensures IsDigit(v[k]) || v[k] == '.' {
      if k < |x| {
        assert v[k] == x[k];
      } else if k > |x| {
        assert v[k] == y[k - |x| - 1];
      }
    }
  }

  /** Three runs of digits joined by two dots match the version pattern. */
  lemma ShapedOfRuns(x: string, y: string, z: string)
    requires AllDigits(x) && AllDigits(y) && AllDigits(z)
    ensures Shaped(x + ['.'] + (y + ['.'] + z))
  {
    DotsOfDigits(x);
    DotsOfDigits(y);
    DotsOfDigits(z);
    DotsAround(y, '.', z);
    DotsAround(x, '.', y + ['.'] + z);
    DigitsOrDotsAround(y, '.', z);
    DigitsOrDotsAround(x, '.', y + ['.'] + z);
  }

  /** The greedy match at `i` is a whole match of the pattern. */
  lemma VersionEndAtSound(s: string, i: nat)
    requires i <= |s| && VersionEndAt(s, i).Some?
    ensures Shaped(s[i..VersionEndAt(s, i).value])
  {
    var a := i + DigitRun(s, i);
    var b := a + 1 + DigitRun(s, a + 1);
    var e := b + 1 + DigitRun(s, b + 1);
    assert s[a] == '.' && s[b] == '.';
    assert e == VersionEndAt(s, i).value;
    var x, y, z := s[i..a], s[a + 1..b], s[b + 1..e];
    SliceAround(s, i, a, e);
    SliceAround(s, a + 1, b, e);
    assert s[i..e] == x + ['.'] + (y + ['.'] + z);
    RunDigits(s, i);
    RunDigits(s, a + 1);
    RunDigits(s, b + 1);
    ShapedOfRuns(x, y, z);
  }

  /** Every whole match that starts at `i` is found by the greedy match there, which is at least
      as long: JavaScript's backtracking cannot do better than greedy for this pattern. */
  lemma VersionEndAtComplete(s: string, i: nat, m: nat)
    requires i <= m <= |s| && Shaped(s[i..m])
    ensures VersionEndAt(s, i).Some? && m <= VersionEndAt(s, i).value
  {
    FirstDot(s, i, m);
    var a := i + DigitRun(s, i);
    FirstDot(s, a + 1, m);
    var b := a + 1 + DigitRun(s, a + 1);
    NoDotsAllDigits(s[b + 1..m]);
    forall k | b + 1 <= k < m ensures IsDigit(s[k]) {
      assert s[b + 1..m][k - b - 1] == s[k];
    }
    DigitRunCovers(s, b + 1, m);
  }

  /** The regular-expression semantics of the version extraction: the match found is a whole
      match of the pattern, no match starts further left, and none starting at the same place
      is longer; when nothing is found, no substring matches. */
  lemma MatchVersionIsLeftmostLongest(s: string)
    ensures MatchVersion(s).Some? ==>
      var (p, e) := MatchVersion(s).value;
      && Shaped(s[p..e])
      && (forall k, m :: 0 <= k < p && k <= m <= |s| ==> !Shaped(s[k..m]))
      && (forall m :: p <= m <= |s| && Shaped(s[p..m]) ==> m <= e)
    ensures MatchVersion(s).None? ==> forall k, m :: 0 <= k <= m <= |s| ==> !Shaped(s[k..m])
  {
    var r := MatchVersion(s);
    forall k, m | 0 <= k <= m <= |s| && Shaped(s[k..m])
      ensures r.Some? && r.value.0 <= k
      ensures r.Some? && k == r.value.0 ==> m <= r.value.1
    {
      VersionEndAtComplete(s, k, m);
    }
    if r.Some? {
      VersionEndAtSound(s, r.value.0);
    }
  }

  /** `s[k..k + 14]` is a run of 14 digits. */
  predicate TokenAt(s: string, k: int)
  {
    0 <= k && k + 14 <= |s| && IsToken(s[k..k + 14])
  }

  /** The leftmost start at or after `i` of 14 consecutive digits. */
  function MatchTokenFrom(s: string, i: nat): (r: Option<nat>)
    requires i <= |s|
    ensures r.Some? ==> i <= r.value && TokenAt(s, r.value)
    ensures r.Some? ==> forall k :: i <= k < r.value ==> !TokenAt(s, k)
    ensures r.None? ==> forall k :: i <= k ==> !TokenAt(s, k)
    decreases |s| - i
  {
    if i + 14 > |s| then None
    else if AllDigits(s[i..i + 14]) then Some(i)
    else MatchTokenFrom(s, i + 1)
  }

  /** the first match of `[0-9]{14}` in the filename, or `None` when there is no match. */
  function ExtractToken(filename: string): (r: Option<string>)
    ensures r.Some? ==> IsToken(r.value)
  {
    match MatchTokenFrom(filename, 0)
    case Some(i) => Some(filename[i..i + 14])
    case None => None
  }

  /** A position holding neither a digit nor a dot cannot start a version match. */
  lemma SkipVersionStart(s: string, i: nat)
    requires i < |s| && !IsDigit(s[i]) && s[i] != '.'
    ensures MatchVersionFrom(s, i) == MatchVersionFrom(s, i + 1)
  {
    assert DigitRun(s, i) == 0;
  }

  /** A position where no 14-digit run starts is passed over. */
  lemma SkipTokenStart(s: string, i: nat)
    requires i < |s| && !TokenAt(s, i)
    ensures MatchTokenFrom(s, i) == MatchTokenFrom(s, i + 1)
  {
  }

  /** The shape of the build server's filenames, `mobilesdk-X.Y.Z.v<token>...`, with one-digit
      version parts. */
  predicate SdkFilename(s: string)
  {
    && |s| >= 31
    && (forall k :: 0 <= k < 10 ==> !IsDigit(s[k]) && s[k] != '.')
    && IsDigit(s[10]) && s[11] == '.' && IsDigit(s[12]) && s[13] == '.' && IsDigit(s[14])
    && s[15] == '.' && !IsDigit(s[16])
    && IsToken(s[17..31])
  }

  /** The build server's filenames, `mobilesdk-X.Y.Z.v<token>...` with one-digit version
      parts: the version is `X.Y.Z` and the timestamp token is the one after the 'v', whatever
      follows it. */
  lemma ExtractFromSdkFilename(s: string)
    requires SdkFilename(s)
    ensures ExtractVersion(s) == Some(s[10..15])
    ensures ExtractToken(s) == Some(s[17..31])
  {
    var k := 0;
    while k < 10
      invariant 0 <= k <= 10
      invariant MatchVersionFrom(s, 0) == MatchVersionFrom(s, k)
    {
      SkipVersionStart(s, k);
      k := k + 1;
    }
    assert DigitRun(s, 11) == 0 && DigitRun(s, 13) == 0 && DigitRun(s, 15) == 0;
    assert DigitRun(s, 10) == 1 && DigitRun(s, 12) == 1 && DigitRun(s, 14) == 1;
    assert VersionEndAt(s, 10) == Some(15);
    k := 0;
    while k < 17
      invariant 0 <= k <= 17
      invariant MatchTokenFrom(s, 0) == MatchTokenFrom(s, k)
    {
      var w := if k < 3 then 9 else 16;
      assert s[k..k + 14][w - k] == s[w];
      SkipTokenStart(s, k);
      k := k + 1;
    }
    assert TokenAt(s, 17);
  }

  /** The build server's naming scheme, `mobilesdk-<version>.v<token>-<os>.zip`. */
  function SdkName(version: string, token: string, os: string): string
  {
    "mobilesdk-" + version + ".v" + token + "-" + os + ".zip"
  }

  /** A version of three one-digit parts, such as "2.1.0". */
  predicate OneDigitVersion(v: string)
  {
    |v| == 5 && IsDigit(v[0]) && v[1] == '.' && IsDigit(v[2]) && v[3] == '.' && IsDigit(v[4])
  }

  /** A name built by the naming scheme yields back its version and its token. */
  lemma SdkNameFields(v: string, t: string, os: string)
    requires OneDigitVersion(v) && IsToken(t)
    ensures ExtractVersion(SdkName(v, t, os)) == Some(v)
    ensures ExtractToken(SdkName(v, t, os)) == Some(t)
  {
    var s := SdkName(v, t, os);
    var prefix := "mobilesdk-";
    assert s == prefix + v + ".v" + t + ("-" + os + ".zip");
    assert s[..10] == prefix;
    forall k | 0 <= k < 10 ensures !IsDigit(s[k]) && s[k] != '.' {
      assert s[k] == prefix[k];
    }
    assert s[10..15] == v;
    assert s[15] == '.' && s[16] == 'v';
    assert s[17..31] == t;
    ExtractFromSdkFilename(s);
  }

  /** A name built by the naming scheme contains its OS. */
  lemma SdkNameContainsOs(v: string, t: string, os: string)
    requires |v| == 5 && |t| == 14
    ensures Contains(SdkName(v, t, os), os)
  {
    var s := SdkName(v, t, os);
    assert s == "mobilesdk-" + v + ".v" + t + "-" + os + ".zip";
    assert s[32..32 + |os|] == os;
    assert OccursAt(s, os, 32);
    ContainsIffOccurs(s, os);
  }

  /** `osx` does not occur in the name of a linux build: the only `x` of such a name is the last
      letter of `linux`, and it is not preceded by `os`. */
  lemma OsxNotInLinuxName(v: string, t: string)
    requires OneDigitVersion(v) && IsToken(t)
    ensures !Contains(SdkName(v, t, "linux"), "osx")
  {
    var s := SdkName(v, t, "linux");
    var front := "mobilesdk-" + v + ".v" + t + "-";
    assert s == front + "linux" + ".zip";
    assert 'x' !in front by {
      forall i | 0 <= i < |front| ensures front[i] != 'x' {
        if i < 10 {
          assert front[i] == "mobilesdk-"[i];
        } else if 10 <= i < 15 {
          assert front[i] == v[i - 10];
        } else if 17 <= i < 31 {
          assert front[i] == t[i - 17];
        }
      }
    }
    forall p | 0 <= p < |s| && p != 36 ensures s[p] != 'x' {
      if p < 32 {
        assert s[p] == front[p];
      } else if p < 37 {
        assert s[p] == "linux"[p - 32];
      } else {
        assert s[p] == ".zip"[p - 37];
      }
    }
    assert s[34] == 'n';
    ContainsIffOccurs(s, "osx");
    forall k ensures !OccursAt(s, "osx", k) {
      if 0 <= k && k + 3 <= |s| {
        if k + 2 == 36 {
          assert s[k..k + 3][0] == s[34];
        } else {
          assert s[k..k + 3][2] == s[k + 2];
        }
      }
    }
  }

  /** A character that is neither a digit nor a dot, and that neither the scheme's fixed text
      nor the OS holds, does not occur in a name built by the scheme. */
  lemma SdkNameLacks(v: string, t: string, os: string, c: char)
    requires DigitsOrDots(v) && AllDigits(t)
    requires !IsDigit(c) && c !in "mobilesdk-" && c !in ".v" && c !in "-" && c !in os && c !in ".zip"
    ensures c !in SdkName(v, t, os)
  {
  }
}
