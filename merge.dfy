/** `mergeBuilds`: reconciling the builds the server offers with the builds on disk, flagging
    each offered build that is installed and appending the installed builds nobody offers. */
module Merge {
  import opened Timestamp
  import opened Foreign
  import opened Catalog
  import opened Installed
  import opened Sorting

  /** A build in the merged list: one the server offers, or one found on disk. */
  datatype Sdk = Remote(build: Build) | Local(local: InstalledBuild)

  /** A merged entry: the build and the `installed` flag `mergeBuilds` sets on it. */
  datatype Entry = Entry(sdk: Sdk, installed: bool)

  function HashOf(sdk: Sdk): string
  {
    match sdk
    case Remote(b) => b.githash
    case Local(b) => b.githash
  }

  function DateOf(sdk: Sdk): DateFields
  {
    match sdk
    case Remote(b) => b.date
    case Local(b) => b.date
  }

  /** The short hashes the server offers. */
  function OfferedHashes(available: seq<Build>): set<string>
  {
    set b | b in available :: b.githash
  }

  /** The short hashes found on disk. */
  function InstalledHashes(installed: seq<InstalledBuild>): set<string>
  {
    set b | b in installed :: b.githash
  }

  /** `installedByHash` once the `forEach` has run: every short hash to the last installed build
      that carries it. */
  function IndexByHash(installed: seq<InstalledBuild>): map<string, InstalledBuild>
  {
    if installed == [] then map[]
    else
      var last := installed[|installed| - 1];
      IndexByHash(installed[..|installed| - 1])[last.githash := last]
  }

  /** Every value of the index is filed under its own short hash. */
  predicate SelfKeyed(m: map<string, InstalledBuild>)
  {
    forall k :: k in m ==> m[k].githash == k
  }

  /** The index holds exactly the installed short hashes, each filed under its own hash. */
  lemma {:induction false} IndexByHashKeys(installed: seq<InstalledBuild>)
    ensures IndexByHash(installed).Keys == InstalledHashes(installed)
    ensures SelfKeyed(IndexByHash(installed))
  {
    if installed != [] {
      var n := |installed| - 1;
      var front := installed[..n];
      IndexByHashKeys(front);
      assert installed == front + [installed[n]];
      assert InstalledHashes(installed) == InstalledHashes(front) + {installed[n].githash};
    }
  }

  /** Each installed hash is mapped to the last installed build that carries it. */
  lemma {:induction false} IndexByHashLast(installed: seq<InstalledBuild>, j: nat)
    requires j < |installed|
    requires forall h :: j < h < |installed| ==> installed[h].githash != installed[j].githash
    ensures installed[j].githash in IndexByHash(installed)
    ensures IndexByHash(installed)[installed[j].githash] == installed[j]
  {
    var n := |installed| - 1;
    if j < n {
      var front := installed[..n];
      assert front[j] == installed[j];
      assert forall h :: j < h < |front| ==> front[h] == installed[h];
      IndexByHashLast(front, j);
    }
  }

  /** The index holds exactly the installed short hashes, each mapped to the last build that
      carries it. */
  lemma IndexByHashSpec(installed: seq<InstalledBuild>)
    ensures IndexByHash(installed).Keys == InstalledHashes(installed)
    ensures SelfKeyed(IndexByHash(installed))
    ensures forall j :: 0 <= j < |installed| &&
                        (forall h :: j < h < |installed| ==> installed[h].githash != installed[j].githash) ==>
              IndexByHash(installed)[installed[j].githash] == installed[j]
  {
    IndexByHashKeys(installed);
    forall j | 0 <= j < |installed| &&
               (forall h :: j < h < |installed| ==> installed[h].githash != installed[j].githash)
      ensures IndexByHash(installed)[installed[j].githash] == installed[j]
    {
      IndexByHashLast(installed, j);
    }
  }

  /** The `available.map` step: each offered build is flagged installed when its short hash is
      still in the index, and the hash is then deleted. Returns the flagged builds and the
      index that is left. */
  function Flag(available: seq<Build>, m: map<string, InstalledBuild>): (seq<Entry>, map<string, InstalledBuild>)
  {
    if available == [] then ([], m)
    else
      var b := available[0];
      var rest := Flag(available[1..], m - {b.githash});
      ([Entry(Remote(b), b.githash in m)] + rest.0, rest.1)
  }

  /** The offered hashes of a non-empty list: its first build's and the rest's. */
  lemma OfferedHashesCons(available: seq<Build>)
    requires available != []
    ensures OfferedHashes(available) == {available[0].githash} + OfferedHashes(available[1..])
  {
    assert available == [available[0]] + available[1..];
  }

  /** Every offered build comes out once, in order, flagged exactly when its hash is in the index
      and no earlier offered build has the same hash. */
  lemma {:induction false} FlagEntries(available: seq<Build>, m: map<string, InstalledBuild>)
    ensures |Flag(available, m).0| == |available|
    ensures forall j :: 0 <= j < |available| ==> Flag(available, m).0[j].sdk == Remote(available[j])
    ensures forall j :: 0 <= j < |available| ==>
              (Flag(available, m).0[j].installed <==>
                 available[j].githash in m && forall h :: 0 <= h < j ==> available[h].githash != available[j].githash)
  {
    if available != [] {
      var b := available[0];
      var rest := available[1..];
      FlagEntries(rest, m - {b.githash});
      forall j | 1 <= j < |available|
        ensures Flag(available, m).0[j].installed <==>
                  available[j].githash in m && forall h :: 0 <= h < j ==> available[h].githash != available[j].githash
      {
        assert available[j] == rest[j - 1];
        assert forall h :: 1 <= h < j ==> available[h] == rest[h - 1];
      }
    }
  }

  /** The index left after flagging is the original one without the offered hashes. */
  lemma {:induction false} FlagRest(available: seq<Build>, m: map<string, InstalledBuild>)
    ensures Flag(available, m).1.Keys == m.Keys - OfferedHashes(available)
    ensures forall k :: k in Flag(available, m).1 ==> Flag(available, m).1[k] == m[k]
  {
    if available != [] {
      var b := available[0];
      FlagRest(available[1..], m - {b.githash});
      OfferedHashesCons(available);
    }
  }

  /** Every offered build comes out once, in order; it is flagged exactly when its hash is in
      the index and no earlier offered build has the same hash; the index that is left is the
      original one without the offered hashes. */
  lemma FlagSpec(available: seq<Build>, m: map<string, InstalledBuild>)
    ensures |Flag(available, m).0| == |available|
    ensures forall j :: 0 <= j < |available| ==> Flag(available, m).0[j].sdk == Remote(available[j])
    ensures forall j :: 0 <= j < |available| ==>
              (Flag(available, m).0[j].installed <==>
                 available[j].githash in m && forall h :: 0 <= h < j ==> available[h].githash != available[j].githash)
    ensures Flag(available, m).1.Keys == m.Keys - OfferedHashes(available)
    ensures forall k :: k in Flag(available, m).1 ==> Flag(available, m).1[k] == m[k]
  {
    FlagEntries(available, m);
    FlagRest(available, m);
  }

  /** The `Object.keys(installedByHash).forEach` step: the installed builds left in the index,
      each flagged installed, taken in the order their hashes were first filed. */
  function Leftovers(installed: seq<InstalledBuild>, m: map<string, InstalledBuild>): seq<Entry>
  {
    if installed == [] then []
    else
      var h := installed[0].githash;
      if h in m then [Entry(Local(m[h]), true)] + Leftovers(installed[1..], m - {h})
      else Leftovers(installed[1..], m)
  }

  /** Every leftover is an installed build taken from the index and flagged installed. */
  lemma {:induction false} LeftoversFromIndex(installed: seq<InstalledBuild>, m: map<string, InstalledBuild>)
    requires SelfKeyed(m)
    ensures forall e :: e in Leftovers(installed, m) ==>
              e.installed && e.sdk.Local? && HashOf(e.sdk) in m && m[HashOf(e.sdk)] == e.sdk.local
  {
    if installed != [] {
      var h := installed[0].githash;
      if h in m {
        LeftoversFromIndex(installed[1..], m - {h});
      } else {
        LeftoversFromIndex(installed[1..], m);
      }
    }
  }

  /** The installed hashes of a non-empty list: its first build's and the rest's. */
  lemma InstalledHashesCons(installed: seq<InstalledBuild>)
    requires installed != []
    ensures InstalledHashes(installed) == {installed[0].githash} + InstalledHashes(installed[1..])
  {
    assert installed == [installed[0]] + installed[1..];
  }

  /** Removing a key that is also the head hash shrinks the common hashes by that key alone. */
  lemma CommonWithout(keys: set<string>, h: string, rest: set<string>)
    requires h in keys
    ensures |(keys - {h}) * rest| == |keys * ({h} + rest)| - 1
  {
    assert (keys - {h}) * rest == (keys * ({h} + rest)) - {h};
  }

  /** A head hash that is not a key changes nothing in common. */
  lemma CommonSkip(keys: set<string>, h: string, rest: set<string>)
    requires h !in keys
    ensures keys * rest == keys * ({h} + rest)
  {
  }

  /** There is one leftover per hash that is both left in the index and installed. */
  lemma {:induction false} LeftoversCount(installed: seq<InstalledBuild>, m: map<string, InstalledBuild>)
    ensures |Leftovers(installed, m)| == |m.Keys * InstalledHashes(installed)|
  {
    if installed != [] {
      var h := installed[0].githash;
      var rest := installed[1..];
      InstalledHashesCons(installed);
      if h in m {
        LeftoversCount(rest, m - {h});
        assert (m - {h}).Keys == m.Keys - {h};
        CommonWithout(m.Keys, h, InstalledHashes(rest));
      } else {
        LeftoversCount(rest, m);
        CommonSkip(m.Keys, h, InstalledHashes(rest));
      }
    }
  }

  /** Leftovers have pairwise different hashes. */
  lemma {:induction false} LeftoversDistinct(installed: seq<InstalledBuild>, m: map<string, InstalledBuild>)
    requires SelfKeyed(m)
    ensures forall i, j :: 0 <= i < j < |Leftovers(installed, m)| ==>
              HashOf(Leftovers(installed, m)[i].sdk) != HashOf(Leftovers(installed, m)[j].sdk)
  {
    if installed != [] {
      var h := installed[0].githash;
      var rest := installed[1..];
      if h in m {
        var m' := m - {h};
        LeftoversDistinct(rest, m');
        LeftoversFromIndex(rest, m');
        var l := Leftovers(installed, m);
        forall j | 1 <= j < |l| ensures HashOf(l[0].sdk) != HashOf(l[j].sdk) {
          assert l[j] in Leftovers(rest, m');
        }
      } else {
        LeftoversDistinct(rest, m);
      }
    }
  }

  /** Every hash left in the index that an installed build carries gets a leftover. */
  lemma {:induction false} LeftoversCover(installed: seq<InstalledBuild>, m: map<string, InstalledBuild>, h: string)
    requires SelfKeyed(m) && h in m && h in InstalledHashes(installed)
    ensures exists i :: 0 <= i < |Leftovers(installed, m)| && HashOf(Leftovers(installed, m)[i].sdk) == h
  {
    var rest := installed[1..];
    var g := installed[0].githash;
    assert InstalledHashes(installed) == {g} + InstalledHashes(rest) by {
      assert installed == [installed[0]] + rest;
    }
    if g == h {
      assert HashOf(Leftovers(installed, m)[0].sdk) == h;
    } else if g in m {
      LeftoversCover(rest, m - {g}, h);
      var i :| 0 <= i < |Leftovers(rest, m - {g})| && HashOf(Leftovers(rest, m - {g})[i].sdk) == h;
      assert Leftovers(installed, m)[i + 1] == Leftovers(rest, m - {g})[i];
    } else {
      LeftoversCover(rest, m, h);
      assert Leftovers(installed, m) == Leftovers(rest, m);
    }
  }

  /** What `mergeBuilds` returns before its sort: the flagged offered builds, then the leftover
      installed builds. */
  function Merged(available: seq<Build>, installed: seq<InstalledBuild>): seq<Entry>
  {
    var flagged := Flag(available, IndexByHash(installed));
    flagged.0 + Leftovers(installed, flagged.1)
  }

  /** The merged list holds every offered build plus one entry per installed hash that no
      offered build carries. */
  lemma MergedCount(available: seq<Build>, installed: seq<InstalledBuild>)
    ensures |Merged(available, installed)| ==
            |available| + |InstalledHashes(installed) - OfferedHashes(available)|
  {
    var m := IndexByHash(installed);
    IndexByHashSpec(installed);
    FlagSpec(available, m);
    LeftoversCount(installed, Flag(available, m).1);
    assert Flag(available, m).1.Keys * InstalledHashes(installed) == InstalledHashes(installed) - OfferedHashes(available);
  }

  /** The merged list opens with every offered build once and in order, flagged installed exactly
      when its hash is installed and no earlier offered build has the same hash. */
  lemma MergedOffered(available: seq<Build>, installed: seq<InstalledBuild>)
    ensures |available| <= |Merged(available, installed)|
    ensures forall j :: 0 <= j < |available| ==>
              Merged(available, installed)[j].sdk == Remote(available[j]) &&
              (Merged(available, installed)[j].installed <==>
                 available[j].githash in InstalledHashes(installed) &&
                 forall h :: 0 <= h < j ==> available[h].githash != available[j].githash)
  {
    IndexByHashSpec(installed);
    FlagSpec(available, IndexByHash(installed));
  }

  /** After the offered builds come the installed builds no offered build carries: each flagged
      installed, each the last installed build with its hash, no hash twice. */
  lemma MergedLeftovers(available: seq<Build>, installed: seq<InstalledBuild>)
    ensures forall j :: |available| <= j < |Merged(available, installed)| ==>
              var e := Merged(available, installed)[j];
              && e.installed && e.sdk.Local?
              && e.sdk.local.githash !in OfferedHashes(available)
              && e.sdk.local.githash in IndexByHash(installed)
              && IndexByHash(installed)[e.sdk.local.githash] == e.sdk.local
    ensures forall i, j :: |available| <= i < j < |Merged(available, installed)| ==>
              HashOf(Merged(available, installed)[i].sdk) != HashOf(Merged(available, installed)[j].sdk)
  {
    var m := IndexByHash(installed);
    IndexByHashSpec(installed);
    FlagSpec(available, m);
    var flagged := Flag(available, m);
    assert SelfKeyed(flagged.1);
    var left := Leftovers(installed, flagged.1);
    LeftoversFromIndex(installed, flagged.1);
    LeftoversDistinct(installed, flagged.1);
    var merged := Merged(available, installed);
    assert merged == flagged.0 + left;
    forall j | |available| <= j < |merged|
      ensures merged[j] == left[j - |available|]
    {
    }
  }

  /** The installed builds no offered build carries are exactly the hashes of the leftovers. */
  lemma MergedCoversInstalled(available: seq<Build>, installed: seq<InstalledBuild>, h: string)
    requires h in InstalledHashes(installed) && h !in OfferedHashes(available)
    ensures exists j :: |available| <= j < |Merged(available, installed)| &&
                        HashOf(Merged(available, installed)[j].sdk) == h
  {
    var m := IndexByHash(installed);
    IndexByHashSpec(installed);
    FlagSpec(available, m);
    LeftoversCover(installed, Flag(available, m).1, h);
    var left := Leftovers(installed, Flag(available, m).1);
    var i :| 0 <= i < |left| && HashOf(left[i].sdk) == h;
    assert Merged(available, installed)[|available| + i] == left[i];
  }

  /** When no two offered builds share a short hash, the merged list holds each short hash
      once. */
  lemma MergedDistinct(available: seq<Build>, installed: seq<InstalledBuild>)
    requires forall i, j :: 0 <= i < j < |available| ==> available[i].githash != available[j].githash
    ensures forall i, j :: 0 <= i < j < |Merged(available, installed)| ==>
              HashOf(Merged(available, installed)[i].sdk) != HashOf(Merged(available, installed)[j].sdk)
  {
    MergedOffered(available, installed);
    MergedLeftovers(available, installed);
    var merged := Merged(available, installed);
    forall i, j | 0 <= i < j < |merged| ensures HashOf(merged[i].sdk) != HashOf(merged[j].sdk) {
      if j < |available| {
        assert HashOf(merged[i].sdk) == available[i].githash;
      } else if i < |available| {
        assert available[i] in available;
        assert HashOf(merged[i].sdk) in OfferedHashes(available);
      }
    }
  }

  /** The ordering key of `mergeBuilds`' sort: `date.getTime()`. */
  function EntryTime(host: Host): Entry -> int
  {
    (e: Entry) => host.getTime(DateOf(e.sdk))
  }

  /** `mergeBuilds`: fills the index, flags the offered builds while deleting their hashes,
      appends what is left and sorts the whole by date. */
  method MergeBuilds(host: Host, available: seq<Build>, installed: seq<InstalledBuild>) returns (r: seq<Entry>)
    ensures SortedBy(r, EntryTime(host))
    ensures multiset(r) == multiset(Merged(available, installed))
  {
    var m: map<string, InstalledBuild> := map[];
    var i := 0;
    while i < |installed|
      invariant 0 <= i <= |installed|
      invariant m == IndexByHash(installed[..i])
    {
      assert installed[..i + 1][..i] == installed[..i];
      m := m[installed[i].githash := installed[i]];
      i := i + 1;
    }
    assert installed[..i] == installed;
    var flagged := Flag(available, m);
    var out: seq<Entry> := [];
    var j := 0;
    assert available[j..] == available;
    while j < |available|
      invariant 0 <= j <= |available|
      invariant out + Flag(available[j..], m).0 == flagged.0
      invariant Flag(available[j..], m).1 == flagged.1
    {
      assert available[j..][1..] == available[j + 1..];
      var b := available[j];
      var entry := Entry(Remote(b), b.githash in m);
      assert out + Flag(available[j..], m).0 == (out + [entry]) + Flag(available[j + 1..], m - {b.githash}).0;
      out := out + [entry];
      m := m - {b.githash};
      j := j + 1;
    }
    assert out == flagged.0;
    var k := 0;
    assert installed[k..] == installed;
    while k < |installed|
      invariant 0 <= k <= |installed|
      invariant out + Leftovers(installed[k..], m) == Merged(available, installed)
    {
      assert installed[k..][1..] == installed[k + 1..];
      var h := installed[k].githash;
      if h in m {
        assert out + Leftovers(installed[k..], m) == (out + [Entry(Local(m[h]), true)]) + Leftovers(installed[k + 1..], m - {h});
        out := out + [Entry(Local(m[h]), true)];
        m := m - {h};
      }
      k := k + 1;
    }
    assert out + [] == out;
    var a := new Entry[|out|](n requires 0 <= n < |out| => out[n]);
    assert a[..] == out;
    SortByKey(a, EntryTime(host));
    r := a[..];
  }

  /** The entries of a merged list with a given short hash, as a `filter` on `githash`. */
  function WithHash(entries: seq<Entry>, h: string): (r: seq<Entry>)
    ensures forall e :: e in r <==> e in entries && HashOf(e.sdk) == h
  {
    if entries == [] then []
    else if HashOf(entries[0].sdk) == h then [entries[0]] + WithHash(entries[1..], h)
    else WithHash(entries[1..], h)
  }

  /** The test suite's merge, over distinct short hashes: offered `x`, `y`, `z` and installed `p`,
      `x`, `q` give five entries. */
  lemma MergeShape(available: seq<Build>, installed: seq<InstalledBuild>, x: string, y: string, z: string, p: string, q: string)
    requires |available| == 3 && |installed| == 3
    requires available[0].githash == x && available[1].githash == y && available[2].githash == z
    requires installed[0].githash == p && installed[1].githash == x && installed[2].githash == q
    requires x != y && x != z && x != p && x != q && y != z && y != p && y != q && z != p && z != q && p != q
    ensures Merged(available, installed) ==
            [Entry(Remote(available[0]), true), Entry(Remote(available[1]), false), Entry(Remote(available[2]), false),
             Entry(Local(installed[0]), true), Entry(Local(installed[2]), true)]
  {
    assert installed[..1][..0] == [];
    assert installed[..2][..1] == installed[..1];
    assert installed[..3][..2] == installed[..2];
    assert installed[..3] == installed;
    var m := IndexByHash(installed);
    assert IndexByHash(installed[..1]) == map[p := installed[0]];
    assert IndexByHash(installed[..2]) == map[p := installed[0], x := installed[1]];
    assert m == map[p := installed[0], x := installed[1], q := installed[2]];
    var m1 := map[p := installed[0], q := installed[2]];
    assert m - {x} == m1;
    assert m1 - {y} == m1;
    assert m1 - {z} == m1;
    assert available[1..][1..] == available[2..];
    assert available[2..][1..] == [];
    assert available[2..][0] == available[2] && available[1..][0] == available[1];
    assert z !in m1 && y !in m1 && x in m;
    assert Flag(available[2..][1..], m1 - {z}) == ([], m1);
    var e2 := Entry(Remote(available[2]), false);
    assert Flag(available[2..], m1).0 == [e2] + [];
    assert [e2] + [] == [e2];
    var e1 := Entry(Remote(available[1]), false);
    assert Flag(available[1..], m1).0 == [e1] + [e2];
    assert Flag(available[1..], m1).1 == m1;
    var e0 := Entry(Remote(available[0]), true);
    assert Flag(available, m).0 == [e0] + [e1, e2];
    assert Flag(available, m).1 == m1;
    assert installed[1..][1..] == installed[2..];
    assert installed[2..][1..] == [];
    var m2 := map[q := installed[2]];
    assert m1 - {p} == m2;
    assert m2 - {q} == map[];
    assert Leftovers(installed[2..], m2) == [Entry(Local(installed[2]), true)];
    assert Leftovers(installed[1..], m2) == [Entry(Local(installed[2]), true)];
    assert Leftovers(installed, m1) == [Entry(Local(installed[0]), true), Entry(Local(installed[2]), true)];
  }

  /** The test suite's merge: three offered builds (`c63b0d9`, `79e9c73`, `39bc239`) and three
      installed ones (`0a43607`, `c63b0d9`, `61078b0`) give five entries; `c63b0d9` appears once,
      flagged installed, `79e9c73` once, not flagged, and `61078b0` once, flagged installed. */
  lemma MergeExample(available: seq<Build>, installed: seq<InstalledBuild>)
    requires |available| == 3 && |installed| == 3
    requires available[0].githash == "c63b0d9" && available[1].githash == "79e9c73" && available[2].githash == "39bc239"
    requires installed[0].githash == "0a43607" && installed[1].githash == "c63b0d9" && installed[2].githash == "61078b0"
    ensures |Merged(available, installed)| == 5
    ensures WithHash(Merged(available, installed), "c63b0d9") == [Entry(Remote(available[0]), true)]
    ensures WithHash(Merged(available, installed), "79e9c73") == [Entry(Remote(available[1]), false)]
    ensures WithHash(Merged(available, installed), "61078b0") == [Entry(Local(installed[2]), true)]
  {
    var x, y, z, p, q := available[0].githash, available[1].githash, available[2].githash, installed[0].githash, installed[2].githash;
    assert x[0] == 'c' && y[0] == '7' && z[0] == '3' && p[0] == '0' && q[0] == '6';
    MergeShape(available, installed, x, y, z, p, q);
    var merged := Merged(available, installed);
    var e := merged;
    assert e[1..][1..] == e[2..] && e[2..][1..] == e[3..] && e[3..][1..] == e[4..] && e[4..][1..] == [];
    assert WithHash(e[4..], x) == [] && WithHash(e[4..], y) == [] && WithHash(e[4..], q) == [e[4]];
    assert WithHash(e[3..], x) == [] && WithHash(e[3..], y) == [] && WithHash(e[3..], q) == [e[4]];
    assert WithHash(e[2..], x) == [] && WithHash(e[2..], y) == [] && WithHash(e[2..], q) == [e[4]];
    assert WithHash(e[1..], x) == [] && WithHash(e[1..], y) == [e[1]] && WithHash(e[1..], q) == [e[4]];
  }
}
