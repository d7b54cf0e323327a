/** Backups of the bag file taken before an editing session.

    An archive is named `<basename>_<UTC time>_<hash>.zip`; the hash is read
    back from the names in the backup directory to skip a backup whose content
    is already archived, and after a new archive is written every name beyond
    the 30 greatest (in descending string order) is selected for deletion.
    The hash itself (SHA-1 of the file) is an opaque string here. */
module Backups {
  /** How many archives are kept. */
  const MaxBackups: nat := 30

  // ---------------------------------------------------------------------------
  // Python string helpers

  /** `s.rfind(c)`: the last index of `c` in `s`, or -1. */
  function RFind(s: string, c: char): (r: int)
    ensures -1 <= r < |s|
    ensures r >= 0 ==> s[r] == c
    ensures forall j :: r < j < |s| ==> s[j] != c
  {
    if s == [] then -1
    else if s[|s| - 1] == c then |s| - 1
    else RFind(s[..|s| - 1], c)
  }

  /** `sep.join(parts)`. */
  function Join(sep: string, parts: seq<string>): string
  {
    if parts == [] then ""
    else if |parts| == 1 then parts[0]
    else parts[0] + sep + Join(sep, parts[1..])
  }

  /** `s.split(sep)` for a one-character separator: the pieces between the
      separators, always at least one. */
  function Split(s: string, sep: char): (r: seq<string>)
    ensures |r| >= 1
  {
    if s == [] then [""]
    else
      var rest := Split(s[1..], sep);
      if s[0] == sep then [""] + rest
      else [[s[0]] + rest[0]] + rest[1..]
  }

  function Last<T>(s: seq<T>): T
    requires s != []
  {
    s[|s| - 1]
  }

  /** The last piece of `s.split(sep)` is the longest suffix of `s` without
      `sep`; there is one piece exactly when `sep` does not occur. */
  lemma {:induction false} SplitLastPiece(s: string, sep: char)
    ensures |Split(s, sep)| == 1 <==> sep !in s
    ensures var l := Last(Split(s, sep));
      && sep !in l
      && |l| <= |s| && l == s[|s| - |l|..]
      && (|l| < |s| ==> s[|s| - |l| - 1] == sep)
  {
    if s != [] {
      var t := s[1..];
      var rest := Split(t, sep);
      SplitLastPiece(t, sep);
      var l := Last(rest);
      assert t[|t| - |l|..] == s[|s| - |l|..];
      assert |l| < |t| ==> t[|t| - |l| - 1] == s[|s| - |l| - 1];
      assert s == [s[0]] + t;
      if s[0] == sep {
        SplitSepFirst(s, sep);
      } else if |rest| == 1 {
        SplitOnePiece(s, sep);
      } else {
        SplitManyPieces(s, sep);
      }
    }
  }

  lemma SplitSepFirst(s: string, sep: char)
    requires s != [] && s[0] == sep
    ensures Split(s, sep) == [""] + Split(s[1..], sep)
    ensures Last(Split(s, sep)) == Last(Split(s[1..], sep))
  {
    var rest := Split(s[1..], sep);
    assert Split(s, sep) == [""] + rest;
    assert ([""] + rest)[|rest|] == rest[|rest| - 1];
  }

  lemma SplitOnePiece(s: string, sep: char)
    requires s != [] && s[0] != sep && |Split(s[1..], sep)| == 1
    ensures Split(s, sep) == [[s[0]] + Split(s[1..], sep)[0]]
  {
  }

  lemma SplitManyPieces(s: string, sep: char)
    requires s != [] && s[0] != sep && |Split(s[1..], sep)| > 1
    ensures |Split(s, sep)| == |Split(s[1..], sep)|
    ensures Last(Split(s, sep)) == Last(Split(s[1..], sep))
  {
    var rest := Split(s[1..], sep);
    var r := [[s[0]] + rest[0]] + rest[1..];
    assert Split(s, sep) == r;
    assert r[|r| - 1] == rest[|rest| - 1];
  }

  /** `os.path.basename(path)`: what follows the last '/'. */
  function BaseName(path: string): string
  {
    path[RFind(path, '/') + 1..]
  }

  /** `os.path.splitext(p)` (POSIX): splits at the last '.' of the last path
      component, unless everything before that dot in the component is dots.
      The extension is empty or one '.' followed by neither '.' nor '/'; it
      is empty exactly when every '.' of the last component has only dots
      before it in that component (so leading dots stay in the root). */
  function SplitExt(p: string): (r: (string, string))
    ensures r.0 + r.1 == p
    ensures r.1 == "" || (r.1[0] == '.' && '.' !in r.1[1..] && '/' !in r.1)
    ensures r.1 != "" ==> exists j :: RFind(p, '/') < j < |r.0| && r.0[j] != '.'
    ensures r.1 == "" <==> forall j, k :: RFind(p, '/') < j < k < |p| && p[k] == '.' ==> p[j] == '.'
  {
    var sepIndex := RFind(p, '/');
    var dotIndex := RFind(p, '.');
    if dotIndex > sepIndex && exists j :: sepIndex < j < dotIndex && p[j] != '.'
    then (p[..dotIndex], p[dotIndex..])
    else (p, "")
  }

  // ---------------------------------------------------------------------------
  // Archive names

  /** The archive name: `"_".join([basename, timestamp, hash + ".zip"])`. */
  function ArchiveName(basename: string, timestamp: string, hash: string): (r: string)
    ensures r == basename + "_" + timestamp + "_" + hash + ".zip"
  {
    var parts := [basename, timestamp, hash + ".zip"];
    assert parts[1..] == [timestamp, hash + ".zip"];
    assert parts[1..][1..] == [hash + ".zip"];
    assert Join("_", parts[1..]) == timestamp + "_" + (hash + ".zip");
    Join("_", parts)
  }

  /** The hash read back from a name in the backup directory:
      `os.path.splitext(name)[0].split("_")[-1]`. */
  function HashOf(name: string): (r: string)
    ensures var root := SplitExt(name).0;
      && '_' !in r
      && |r| <= |root| && r == root[|root| - |r|..]
      && (|r| < |root| ==> root[|root| - |r| - 1] == '_')
  {
    SplitLastPiece(SplitExt(name).0, '_');
    Last(Split(SplitExt(name).0, '_'))
  }

  function HashesOf(names: seq<string>): seq<string>
  {
    seq(|names|, i requires 0 <= i < |names| => HashOf(names[i]))
  }

  /** A hash that can be read back from an archive name: hex digests qualify. */
  predicate PlainHash(hash: string)
  {
    '_' !in hash && '/' !in hash
  }

  // ---------------------------------------------------------------------------
  // Descending string order and the pruning selection

  /** Python's string order: lexicographic by code point, a prefix first. */
  predicate LexLe(a: string, b: string)
  {
    a == [] || (b != [] && (a[0] < b[0] || (a[0] == b[0] && LexLe(a[1..], b[1..]))))
  }

  predicate SortedDesc(s: seq<string>)
  {
    forall j, k :: 0 <= j < k < |s| ==> LexLe(s[k], s[j])
  }

  function InsertDesc(x: string, s: seq<string>): seq<string>
  {
    if s == [] then [x]
    else if LexLe(s[0], x) then [x] + s
    else [s[0]] + InsertDesc(x, s[1..])
  }

  /** `sorted(names, reverse=True)`. */
  function SortDesc(names: seq<string>): seq<string>
  {
    if names == [] then [] else InsertDesc(names[0], SortDesc(names[1..]))
  }

  /** `sorted(names, reverse=True)[30:]`: the names to delete. */
  function PruneList(names: seq<string>): (r: seq<string>)
    ensures |r| == if |names| > MaxBackups then |names| - MaxBackups else 0
    ensures multiset(r) <= multiset(names)
  {
    var sorted := SortDesc(names);
    SortDescCorrect(names);
    assert |sorted| > MaxBackups ==> sorted == sorted[..MaxBackups] + sorted[MaxBackups..];
    if |sorted| <= MaxBackups then [] else sorted[MaxBackups..]
  }

  /** The names that survive pruning: the first 30 in descending order. */
  function KeptList(names: seq<string>): (r: seq<string>)
    ensures |r| == if |names| > MaxBackups then MaxBackups else |names|
    ensures multiset(r) <= multiset(names)
    ensures SortedDesc(r)
  {
    var sorted := SortDesc(names);
    SortDescCorrect(names);
    assert |sorted| > MaxBackups ==> sorted == sorted[..MaxBackups] + sorted[MaxBackups..];
    if |sorted| <= MaxBackups then sorted else sorted[..MaxBackups]
  }

  // ---------------------------------------------------------------------------
  // The backup step

  datatype BackupOutcome =
    | AlreadyBackedUp
      /** A new archive was written; `pruned` are the names then passed, as
          they are, to `os.remove`. */
    | Written(archive: string, pruned: seq<string>)

  /** `backup_bag` once the directory listing, the clock and the hash are
      known: nothing is written when some name in the listing carries the
      hash; otherwise the archive is added and the pruning list is computed
      over the new listing. */
  function BackupBag(listing: seq<string>, filePath: string, timestamp: string, hash: string): (r: BackupOutcome)
    ensures r.AlreadyBackedUp? <==> hash in HashesOf(listing)
    ensures r.Written? ==> r.archive == BaseName(filePath) + "_" + timestamp + "_" + hash + ".zip"
    ensures r.Written? && PlainHash(hash) ==> HashOf(r.archive) == hash
    ensures r.Written? ==> |r.pruned| == if |listing| >= MaxBackups then |listing| + 1 - MaxBackups else 0
    ensures r.Written? ==> multiset(r.pruned) <= multiset(listing + [r.archive])
    ensures r.Written? ==> r.pruned == PruneList(listing + [r.archive])
  {
    if hash in HashesOf(listing) then AlreadyBackedUp
    else
      var archive := ArchiveName(BaseName(filePath), timestamp, hash);
      assert PlainHash(hash) ==> HashOf(archive) == hash by {
        if PlainHash(hash) {
          ArchiveNameRoundTrip(BaseName(filePath), timestamp, hash);
        }
      }
      Written(archive, PruneList(listing + [archive]))
  }

  // ---------------------------------------------------------------------------
  // Properties

  /** Splitting at a separator concatenates the pieces of both sides. */
  lemma {:induction false} SplitAppend(a: string, b: string, sep: char)
    ensures Split(a + [sep] + b, sep) == Split(a, sep) + Split(b, sep)
  {
    if a == [] {
      assert a + [sep] + b == [sep] + b;
      assert ([sep] + b)[1..] == b;
    } else {
      assert (a + [sep] + b)[0] == a[0];
      assert (a + [sep] + b)[1..] == a[1..] + [sep] + b;
      SplitAppend(a[1..], b, sep);
    }
  }

  /** A string without the separator is one piece. */
  lemma {:induction false} SplitNone(s: string, sep: char)
    requires sep !in s
    ensures Split(s, sep) == [s]
  {
    if s != [] {
      SplitNone(s[1..], sep);
      assert s == [s[0]] + s[1..];
    }
  }

  /** The last '.' of `s + "." + t` is the one added, when `t` has none. */
  lemma {:induction false} RFindAppended(s: string, c: char, t: string)
    requires c !in t
    ensures RFind(s + [c] + t, c) == |s|
  {
    if t != [] {
      var u := s + [c] + t;
      assert u[..|u| - 1] == s + [c] + t[..|t| - 1];
      RFindAppended(s, c, t[..|t| - 1]);
    }
  }

  /** `os.path.splitext` of `root + ".zip"` gives `root` back, provided a
      character other than '.' and '/' stands at some index `m` of `root`
      with no '/' after it. */
  lemma SplitExtZip(root: string, m: nat)
    requires m < |root| && root[m] != '.' && root[m] != '/'
    requires forall j :: m <= j < |root| ==> root[j] != '/'
    ensures SplitExt(root + ".zip").0 == root
  {
    var p := root + ".zip";
    assert ".zip" == ['.'] + "zip";
    assert p == root + ['.'] + "zip";
    RFindAppended(root, '.', "zip");
    assert "zip" == ['z', 'i', 'p'];
    assert forall j :: m <= j < |p| ==> p[j] != '/';
    assert p[m] == root[m];
  }

  /** The hash read back from a freshly built archive name is the hash it was
      built with, whatever the base name and the time stamp are. */
  lemma ArchiveNameRoundTrip(basename: string, timestamp: string, hash: string)
    requires PlainHash(hash)
    ensures HashOf(ArchiveName(basename, timestamp, hash)) == hash
  {
    var root := basename + "_" + timestamp + "_" + hash;
    var m := |basename| + |timestamp| + 1;
    assert root[m] == '_';
    SplitExtZip(root, m);
    assert root == (basename + "_" + timestamp) + ['_'] + hash;
    SplitAppend(basename + "_" + timestamp, hash, '_');
    SplitNone(hash, '_');
  }

  /** Why the hash must not contain '_': only its last '_'-separated piece is
      read back, so the backup of such content would never be recognised. */
  lemma UnderscoreHashNotRecovered(basename: string, timestamp: string, front: string, back: string)
    requires '_' !in back && '/' !in back
    ensures HashOf(ArchiveName(basename, timestamp, front + "_" + back)) == back
    ensures HashOf(ArchiveName(basename, timestamp, front + "_" + back)) != front + "_" + back
  {
    var hash := front + "_" + back;
    var root := basename + "_" + timestamp + "_" + hash;
    var m := |root| - |back| - 1;
    assert root[m] == '_';
    SplitExtZip(root, m);
    assert root == (basename + "_" + timestamp + "_" + front) + ['_'] + back;
    SplitAppend(basename + "_" + timestamp + "_" + front, back, '_');
    SplitNone(back, '_');
  }

  /** Backing up the same content twice writes one archive: once an archive
      for `hash` is in the listing, a backup with that hash (under any file
      name and at any time) writes nothing.  A backup whose hash is not yet in
      the listing writes an archive from which the hash reads back. */
  lemma BackupDeduplicates(listing: seq<string>, filePath: string, t1: string, filePath2: string, t2: string, hash: string)
    requires PlainHash(hash)
    ensures BackupBag(listing, filePath, t1, hash).AlreadyBackedUp? <==> hash in HashesOf(listing)
    ensures BackupBag(listing, filePath, t1, hash).Written? ==>
      var a := BackupBag(listing, filePath, t1, hash).archive;
      HashOf(a) == hash && BackupBag(listing + [a], filePath2, t2, hash) == AlreadyBackedUp
  {
    var a := ArchiveName(BaseName(filePath), t1, hash);
    ArchiveNameRoundTrip(BaseName(filePath), t1, hash);
    assert HashesOf(listing + [a])[|listing|] == hash;
  }

  lemma {:induction false} LexLeTotal(a: string, b: string)
    ensures LexLe(a, b) || LexLe(b, a)
  {
    if a != [] && b != [] && a[0] == b[0] {
      LexLeTotal(a[1..], b[1..]);
    }
  }

  lemma {:induction false} LexLeTransitive(a: string, b: string, c: string)
    requires LexLe(a, b) && LexLe(b, c)
    ensures LexLe(a, c)
  {
    if a != [] && b != [] && c != [] && a[0] == b[0] && b[0] == c[0] {
      LexLeTransitive(a[1..], b[1..], c[1..]);
    }
  }

  /** Inserting a name no greater than `top` into names no greater than `top`
      gives names no greater than `top`. */
  lemma {:induction false} InsertDescBelow(x: string, s: seq<string>, top: string)
    requires LexLe(x, top)
    requires forall y :: y in s ==> LexLe(y, top)
    ensures forall y :: y in InsertDesc(x, s) ==> LexLe(y, top)
  {
    if s != [] && !LexLe(s[0], x) {
      InsertDescBelow(x, s[1..], top);
    }
  }

  /** A name no smaller than every name of a descending list can go in front. */
  lemma ConsSorted(h: string, t: seq<string>)
    requires SortedDesc(t)
    requires forall y :: y in t ==> LexLe(y, h)
    ensures SortedDesc([h] + t)
  {
    var r := [h] + t;
    forall j, k | 0 <= j < k < |r|
      ensures LexLe(r[k], r[j])
    {
      assert r[k] == t[k - 1];
      if j > 0 {
        assert r[j] == t[j - 1];
      }
    }
  }

  /** Every name of a descending list is at most its head. */
  lemma HeadIsGreatest(s: seq<string>)
    requires s != [] && SortedDesc(s)
    ensures forall y :: y in s[1..] ==> LexLe(y, s[0])
  {
    forall y | y in s[1..]
      ensures LexLe(y, s[0])
    {
      var i :| 0 <= i < |s[1..]| && s[1..][i] == y;
      assert s[i + 1] == y;
    }
  }

  lemma {:induction false} InsertDescSorted(x: string, s: seq<string>)
    requires SortedDesc(s)
    ensures SortedDesc(InsertDesc(x, s))
    ensures multiset(InsertDesc(x, s)) == multiset(s) + multiset{x}
    ensures |InsertDesc(x, s)| == |s| + 1
  {
    if s == [] {
    } else if LexLe(s[0], x) {
      HeadIsGreatest(s);
      forall y | y in s
        ensures LexLe(y, x)
      {
        if y != s[0] {
          assert y in s[1..] by {
            assert s == [s[0]] + s[1..];
          }
          LexLeTransitive(y, s[0], x);
        }
      }
      ConsSorted(x, s);
    } else {
      InsertDescSorted(x, s[1..]);
      LexLeTotal(s[0], x);
      HeadIsGreatest(s);
      InsertDescBelow(x, s[1..], s[0]);
      assert SortedDesc(s[1..]);
      ConsSorted(s[0], InsertDesc(x, s[1..]));
      assert s == [s[0]] + s[1..];
    }
  }

  /** `sorted(names, reverse=True)` is in descending order and holds exactly
      the same names. */
  lemma {:induction false} SortDescCorrect(names: seq<string>)
    ensures SortedDesc(SortDesc(names))
    ensures multiset(SortDesc(names)) == multiset(names)
    ensures |SortDesc(names)| == |names|
  {
    if names != [] {
      var rest := SortDesc(names[1..]);
      SortDescCorrect(names[1..]);
      InsertDescSorted(names[0], rest);
      assert SortDesc(names) == InsertDesc(names[0], rest);
      assert names == [names[0]] + names[1..];
      assert multiset(names) == multiset(names[1..]) + multiset{names[0]};
    }
  }

  /** The pruning selection: the listing minus 30 names are deleted (none
      when there are at most 30), the deleted and the kept names together are
      exactly the listing, and every deleted name comes before, in string
      order, every kept one. */
  lemma PruneSelection(names: seq<string>)
    ensures |PruneList(names)| == if |names| > MaxBackups then |names| - MaxBackups else 0
    ensures |KeptList(names)| == if |names| > MaxBackups then MaxBackups else |names|
    ensures multiset(KeptList(names)) + multiset(PruneList(names)) == multiset(names)
    ensures forall p, k :: p in PruneList(names) && k in KeptList(names) ==> LexLe(p, k)
  {
    var sorted := SortDesc(names);
    SortDescCorrect(names);
    if |sorted| > MaxBackups {
      assert sorted == sorted[..MaxBackups] + sorted[MaxBackups..];
      forall p, k | p in PruneList(names) && k in KeptList(names)
        ensures LexLe(p, k)
      {
        var i :| 0 <= i < |sorted| - MaxBackups && sorted[MaxBackups..][i] == p;
        var j :| 0 <= j < MaxBackups && sorted[..MaxBackups][j] == k;
        assert sorted[i + MaxBackups] == p && sorted[j] == k;
      }
    }
  }
}
